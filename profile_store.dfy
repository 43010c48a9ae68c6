/**
 * client-app/src/app/stores/profileStore.ts: the client's profile state.
 * Each action first calls the API; the call's outcome is a parameter
 * (`apiSucceeded`, or the response itself). A TypeError thrown by a
 * non-null assertion on a missing profile or user inside an action is caught
 * by the action's own `catch`, so it ends the state changes made so far
 * without undoing them; the `finally` block always clears the busy flag.
 */
module ClientProfileStore {
  import opened Wrappers
  import Seqs

  /** IPhoto. */
  datatype Photo = Photo(id: string, url: string, isMain: bool)

  /** IProfile. */
  datatype Profile = Profile(displayName: string, username: string, bio: string, image: string,
                             photos: seq<Photo>, following: bool, followersCount: int, followingCount: int)

  /** The signed-in user of the user store, as far as this store touches it. */
  datatype User = User(username: string, displayName: string, image: string)

  /** The predicate the `activeTab` reaction asks for: tab 3 lists followers, tab 4 followings. */
  function TabPredicate(tab: int): (r: Option<string>)
    ensures r.Some? <==> tab == 3 || tab == 4
  {
    if tab == 3 || tab == 4 then Some(if tab == 3 then "followers" else "following") else None
  }

  /** `photos.find(p => p.isMain)`, as a position. */
  function MainIndex(photos: seq<Photo>): (r: Option<nat>)
    ensures r.Some? ==> r.value < |photos| && photos[r.value].isMain
    ensures r.Some? ==> forall j :: 0 <= j < r.value ==> !photos[j].isMain
    ensures r.None? <==> forall j :: 0 <= j < |photos| ==> !photos[j].isMain
  {
    Seqs.FirstIndex(photos, (p: Photo) => p.isMain)
  }

  /** `photos.find(p => p.id === id)`, as a position. */
  function PhotoIndex(photos: seq<Photo>, id: string): (r: Option<nat>)
    ensures r.Some? ==> r.value < |photos| && photos[r.value].id == id
    ensures r.Some? ==> forall j :: 0 <= j < r.value ==> photos[j].id != id
    ensures r.None? <==> forall j :: 0 <= j < |photos| ==> photos[j].id != id
  {
    Seqs.FirstIndex(photos, (p: Photo) => p.id == id)
  }

  /** `photos.filter(p => p.id !== id)`. */
  function WithoutPhoto(photos: seq<Photo>, id: string): (r: seq<Photo>)
    ensures forall p :: p in r <==> p in photos && p.id != id
    ensures |r| <= |photos|
  {
    Seqs.Filter(photos, (p: Photo) => p.id != id)
  }

  /** Deleting keeps every other photo, as often as it occurred, in its original order. */
  lemma WithoutPhotoKeepsOthers(before: seq<Photo>, after: seq<Photo>, id: string)
    ensures forall p :: p in WithoutPhoto(before, id) <==> p in before && p.id != id
    ensures forall p: Photo :: p.id != id ==> multiset(WithoutPhoto(before, id))[p] == multiset(before)[p]
    ensures WithoutPhoto(before + after, id) == WithoutPhoto(before, id) + WithoutPhoto(after, id)
  {
    Seqs.FilterAppend(before, after, (p: Photo) => p.id != id);
    forall p: Photo | p.id != id
      ensures multiset(WithoutPhoto(before, id))[p] == multiset(before)[p]
    {
      Seqs.FilterCount(before, (p: Photo) => p.id != id, p);
    }
  }

  class ProfileStore {
    var profile: Option<Profile>
    /** `rootStore.userStore.user`. */
    var user: Option<User>
    var loadingProfile: bool
    var uploadingPhoto: bool
    var loading: bool
    var followings: seq<Profile>
    var activeTab: int

    constructor (user: Option<User>)
      ensures profile.None? && this.user == user && followings == [] && activeTab == 0
      ensures loadingProfile && !uploadingPhoto && !loading
    {
      this.user := user;
      profile := None;
      loadingProfile := true;
      uploadingPhoto := false;
      loading := false;
      followings := [];
      activeTab := 0;
    }

    /** `isCurrentUser`: the profile shown is the signed-in user's own. */
    function IsCurrentUser(): (b: bool)
      reads this
      ensures b <==> user.Some? && profile.Some? && user.value.username == profile.value.username
    {
      if user.Some? && profile.Some? then user.value.username == profile.value.username else false
    }

    method Follow(username: string, apiSucceeded: bool)
      modifies this
      ensures apiSucceeded && old(profile).Some? ==>
                profile == Some(old(profile).value.(following := true, followersCount := old(profile).value.followersCount + 1))
      ensures !apiSucceeded || old(profile).None? ==> profile == old(profile)
      ensures !loading
      ensures IsCurrentUser() == old(IsCurrentUser())
      ensures user == old(user) && followings == old(followings) && activeTab == old(activeTab)
      ensures loadingProfile == old(loadingProfile) && uploadingPhoto == old(uploadingPhoto)
    {
      loading := true;
      if apiSucceeded && profile.Some? {
        var p := profile.value;
        p := p.(following := true);
        p := p.(followersCount := p.followersCount + 1);
        profile := Some(p);
      }
      loading := false;
    }

    method Unfollow(username: string, apiSucceeded: bool)
      modifies this
      ensures apiSucceeded && old(profile).Some? ==>
                profile == Some(old(profile).value.(following := false, followersCount := old(profile).value.followersCount - 1))
      ensures !apiSucceeded || old(profile).None? ==> profile == old(profile)
      ensures !loading
      ensures IsCurrentUser() == old(IsCurrentUser())
      ensures user == old(user) && followings == old(followings) && activeTab == old(activeTab)
      ensures loadingProfile == old(loadingProfile) && uploadingPhoto == old(uploadingPhoto)
    {
      loading := true;
      if apiSucceeded && profile.Some? {
        var p := profile.value;
        p := p.(following := false);
        p := p.(followersCount := p.followersCount - 1);
        profile := Some(p);
      }
      loading := false;
    }

    /** Following and then unfollowing, both acknowledged, gives the follower count back. */
    method FollowThenUnfollow(username: string)
      modifies this
      ensures old(profile).Some? ==> profile.Some? && profile.value.followersCount == old(profile).value.followersCount
      ensures old(profile).Some? ==> !profile.value.following
      ensures !loading
      ensures IsCurrentUser() == old(IsCurrentUser())
    {
      Follow(username, true);
      Unfollow(username, true);
    }

    /**
     * `loadFollowings`: asks for the user name of the profile shown and the
     * predicate (returned as `request`; absent when there is no profile, where
     * `this.profile!` throws) and stores the response when there is one.
     */
    method LoadFollowings(predicateName: string, response: Option<seq<Profile>>) returns (request: Option<(string, string)>)
      modifies this
      ensures old(profile).None? ==> request.None? && followings == old(followings)
      ensures old(profile).Some? ==> request == Some((old(profile).value.username, predicateName))
      ensures old(profile).Some? && response.Some? ==> followings == response.value
      ensures response.None? ==> followings == old(followings)
      ensures !loading
      ensures IsCurrentUser() == old(IsCurrentUser())
      ensures profile == old(profile) && user == old(user) && activeTab == old(activeTab)
      ensures loadingProfile == old(loadingProfile) && uploadingPhoto == old(uploadingPhoto)
    {
      loading := true;
      request := None;
      if profile.Some? {
        request := Some((profile.value.username, predicateName));
        if response.Some? {
          followings := response.value;
        }
      }
      loading := false;
    }

    /**
     * `setActiveTab` followed by the `activeTab` reaction, which runs only
     * when the tab actually changes: tab 3 loads the followers, tab 4 the
     * followings, any other tab clears the list.
     */
    method SetActiveTab(tabIndex: int, response: Option<seq<Profile>>) returns (request: Option<(string, string)>)
      modifies this
      ensures activeTab == tabIndex
      ensures tabIndex == old(activeTab) ==> request.None? && followings == old(followings) && loading == old(loading)
      ensures tabIndex != old(activeTab) && tabIndex == 3 && old(profile).Some? ==>
                request == Some((old(profile).value.username, "followers"))
      ensures tabIndex != old(activeTab) && tabIndex == 4 && old(profile).Some? ==>
                request == Some((old(profile).value.username, "following"))
      ensures tabIndex != old(activeTab) && (tabIndex == 3 || tabIndex == 4) ==>
                followings == (if old(profile).Some? && response.Some? then response.value else old(followings)) && !loading
      ensures tabIndex != old(activeTab) && tabIndex != 3 && tabIndex != 4 ==>
                request.None? && followings == [] && loading == old(loading)
      ensures old(profile).None? ==> request.None?
      ensures profile == old(profile) && user == old(user)
      ensures IsCurrentUser() == old(IsCurrentUser())
      ensures loadingProfile == old(loadingProfile) && uploadingPhoto == old(uploadingPhoto)
    {
      var changed := tabIndex != activeTab;
      activeTab := tabIndex;
      request := None;
      if changed {
        var predicateName := TabPredicate(tabIndex);
        if predicateName.Some? {
          request := LoadFollowings(predicateName.value, response);
        } else {
          followings := [];
        }
      }
    }

    /**
     * `updateProfile`: the signed-in user takes the new display name and the
     * profile becomes the submitted one (the spread copies every field of the
     * submitted profile over the old one).
     */
    method UpdateProfile(submitted: Profile, apiSucceeded: bool)
      modifies this
      ensures apiSucceeded && old(user).Some? ==>
                user == Some(old(user).value.(displayName := submitted.displayName)) && profile == Some(submitted)
      ensures !apiSucceeded || old(user).None? ==> user == old(user) && profile == old(profile)
      ensures apiSucceeded && old(user).Some? ==> (IsCurrentUser() <==> submitted.username == old(user).value.username)
      ensures !apiSucceeded || old(user).None? ==> IsCurrentUser() == old(IsCurrentUser())
      ensures !loadingProfile
      ensures followings == old(followings) && activeTab == old(activeTab)
      ensures loading == old(loading) && uploadingPhoto == old(uploadingPhoto)
    {
      loadingProfile := true;
      if apiSucceeded && user.Some? {
        user := Some(user.value.(displayName := submitted.displayName));
        profile := Some(submitted);
      }
      loadingProfile := false;
    }

    /** `uploadPhoto`: `uploaded` is the photo the API returned, absent when the upload failed. */
    method UploadPhoto(uploaded: Option<Photo>)
      modifies this
      ensures uploaded.None? || old(profile).None? ==> profile == old(profile) && user == old(user)
      ensures uploaded.Some? && old(profile).Some? ==>
                var photo := uploaded.value;
                var p := old(profile).value;
                && profile.Some? && profile.value.photos == p.photos + [photo]
                && (photo.isMain && old(user).Some? ==>
                      profile.value == p.(photos := p.photos + [photo], image := photo.url)
                      && user == Some(old(user).value.(image := photo.url)))
                && (!photo.isMain || old(user).None? ==>
                      profile.value == p.(photos := p.photos + [photo]) && user == old(user))
      ensures !uploadingPhoto
      ensures IsCurrentUser() == old(IsCurrentUser())
      ensures followings == old(followings) && activeTab == old(activeTab)
      ensures loading == old(loading) && loadingProfile == old(loadingProfile)
    {
      uploadingPhoto := true;
      if uploaded.Some? && profile.Some? {
        var photo := uploaded.value;
        var p := profile.value;
        p := p.(photos := p.photos + [photo]);
        if photo.isMain && user.Some? {
          user := Some(user.value.(image := photo.url));
          p := p.(image := photo.url);
        }
        profile := Some(p);
      }
      uploadingPhoto := false;
    }

    /**
     * `setMainPhoto`: the user's image becomes the photo's URL, the first main
     * photo loses its flag, the photo with the chosen id gains it and the
     * profile's image becomes the URL. A missing user, profile, main photo or
     * chosen photo throws at that step and leaves the earlier steps in place.
     */
    method SetMainPhoto(photo: Photo, apiSucceeded: bool)
      modifies this
      ensures !apiSucceeded || old(user).None? ==> user == old(user) && profile == old(profile)
      ensures apiSucceeded && old(user).Some? ==> user == Some(old(user).value.(image := photo.url))
      ensures apiSucceeded && old(user).Some? && (old(profile).None? || MainIndex(old(profile).value.photos).None?) ==>
                profile == old(profile)
      ensures apiSucceeded && old(user).Some? && old(profile).Some? && MainIndex(old(profile).value.photos).Some? ==>
                var p := old(profile).value;
                var m := MainIndex(p.photos).value;
                profile == Some(match PhotoIndex(p.photos, photo.id)
                                case None => p.(photos := p.photos[m := p.photos[m].(isMain := false)])
                                case Some(i) => p.(photos := MovedMain(p.photos, m, i), image := photo.url))
      ensures !loading
      ensures IsCurrentUser() == old(IsCurrentUser())
      ensures followings == old(followings) && activeTab == old(activeTab)
      ensures loadingProfile == old(loadingProfile) && uploadingPhoto == old(uploadingPhoto)
    {
      loading := true;
      if apiSucceeded && user.Some? {
        user := Some(user.value.(image := photo.url));
        if profile.Some? {
          var p := profile.value;
          var m := MainIndex(p.photos);
          if m.Some? {
            var cleared := p.photos[m.value := p.photos[m.value].(isMain := false)];
            profile := Some(p.(photos := cleared));
            IndexOfSameIds(cleared, p.photos, photo.id);
            var i := PhotoIndex(cleared, photo.id);
            if i.Some? {
              profile := Some(p.(photos := MovedMain(p.photos, m.value, i.value), image := photo.url));
            }
          }
        }
      }
      loading := false;
    }

    /** `deletePhoto`: every photo with that id leaves the profile; the others stay in order. */
    method DeletePhoto(photo: Photo, apiSucceeded: bool)
      modifies this
      ensures apiSucceeded && old(profile).Some? ==>
                profile == Some(old(profile).value.(photos := WithoutPhoto(old(profile).value.photos, photo.id)))
      ensures apiSucceeded && old(profile).Some? ==>
                forall p :: p in profile.value.photos <==> p in old(profile).value.photos && p.id != photo.id
      ensures !apiSucceeded || old(profile).None? ==> profile == old(profile)
      ensures !loading
      ensures IsCurrentUser() == old(IsCurrentUser())
      ensures user == old(user) && followings == old(followings) && activeTab == old(activeTab)
      ensures loadingProfile == old(loadingProfile) && uploadingPhoto == old(uploadingPhoto)
    {
      loading := true;
      if apiSucceeded && profile.Some? {
        profile := Some(profile.value.(photos := WithoutPhoto(profile.value.photos, photo.id)));
      }
      loading := false;
    }
  }

  /**
   * The photos after `setMainPhoto` clears the flag of the main photo at `m`
   * and sets the flag of the chosen photo at `i`: ids, URLs and every other
   * photo are kept, and the chosen photo ends main even when `i == m`.
   */
  function MovedMain(photos: seq<Photo>, m: nat, i: nat): (r: seq<Photo>)
    requires m < |photos| && i < |photos|
    ensures |r| == |photos|
    ensures forall k :: 0 <= k < |photos| ==> r[k].id == photos[k].id && r[k].url == photos[k].url
    ensures r[i].isMain
    ensures m != i ==> !r[m].isMain
    ensures forall k :: 0 <= k < |photos| && k != i && k != m ==> r[k] == photos[k]
  {
    var cleared := photos[m := photos[m].(isMain := false)];
    cleared[i := cleared[i].(isMain := true)]
  }

  /** Choosing the photo that is already main gives back the same photos. */
  lemma MovedMainSame(photos: seq<Photo>, m: nat)
    requires m < |photos| && photos[m].isMain
    ensures MovedMain(photos, m, m) == photos
  {
    assert MovedMain(photos, m, m)[m] == photos[m];
  }

  /** Two photo lists with the same ids position by position find an id at the same place. */
  lemma IndexOfSameIds(a: seq<Photo>, b: seq<Photo>, id: string)
    requires |a| == |b| && forall k :: 0 <= k < |a| ==> a[k].id == b[k].id
    ensures PhotoIndex(a, id) == PhotoIndex(b, id)
  {
  }
}
