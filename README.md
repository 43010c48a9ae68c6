# Reactivities core, modelled in Dafny

Reactivities is a social events application. Users create activities, attend
them, comment on them, follow each other and manage profile photos. This
project models two layers of it:

- **Server** (`Application/`). These are the MediatR command and query handlers:
  attend and unattend an activity, delete an activity, add a follower, list
  followers or followings, add, delete or set the main photo, create a comment,
  edit a profile and read its details. It also covers the AutoMapper resolver
  that tells whether the current user follows an attendee.
- **Client** (`client-app/src/app/stores/`). These are the MobX stores
  `ProfileStore` and `ActivityStore`, whose actions change the browser's state
  once the server has answered.

How the server is modelled:

- The database is the class `Persistence.DataContext`, read as the committed
  state. Its tables are fields:
  - users, keyed by user name, each with display name, bio and photos;
  - activities, each with its comments;
  - attendance rows, as a set;
  - following rows, as a sequence.
- Every command handler is a method `Handle(context, …)` in its own module. It
  changes the context only when the save succeeds.
- `saved` stands for `SaveChangesAsync() > 0`. `updated` stands for
  `UpdateAsync(user).Succeeded`.
- A thrown `RestException` becomes `Err(NotFound(…))`, `Err(BadRequest(…))`,
  `Err(Unauthorized(…))` or `Err(InternalServerError(…))`, with the source's
  message. A plain `Exception` becomes `Err(Exception(…))`.
- A null dereference becomes `Err(Exception(NullReference))`. A
  `SingleOrDefault` that meets two matches becomes
  `Err(Exception(MoreThanOneElement))`.
- `DataContext.Valid()` holds the database invariants:
  - at most one attendance row per (activity, user);
  - attendance only for existing activities;
  - no duplicate following pair;
  - exactly one main photo for every user who has photos.

  Every command that changes the database preserves `Valid()`.

How the client is modelled:

- Each store is a class whose fields are the store's observables.
- Each action becomes a method. Its API call is a parameter: a success flag, or
  the response (`None` when the call failed).
- A `TypeError` inside an action is caught by the action's own `catch`. It stops
  the action at that point and keeps the assignments made before it.
- The `finally` flag reset always runs.
- The store's `activityRegistry` is a JavaScript `Map`. It is modelled as a Dafny
  `map` plus the key order that `Map` iteration follows.

Time (`DateTime.Now`), `Date.parse`, Cloudinary and the profile reader are
inputs to the model.

Where the code differs from what a reader might expect, the model follows the
code:

- `Activities/Delete` throws a plain exception, not NotFound, for an unknown id.
- `Photos/SetMain` dereferences a missing main photo.
- `Followers/Add` accepts a self-follow.
- `Comments/Create` stores a comment with no author when the user name is unknown.
- Nothing in `Comments/Create` makes comment timestamps increase. The model
  records the given time as it is and claims no order between comments.

## Model

| member | source | states |
|---|---|---|
| `Persistence.DataContext.Valid` | Application/Activities/Attend.cs:41-44 | at most one attendance row per (activity, user), attendance only for existing activities, no duplicate following pair, and exactly one main photo for every user with photos; every command keeps it |
| `ActivitiesAttend.Handle` | Application/Activities/Attend.cs:32-59 | unknown activity is NotFound and a missing current user is a null dereference, both with no change; an existing attendance is BadRequest "Already attending this activity." with no change; otherwise exactly the row (activity, user, not host, given time) is added when the save succeeds, else "Problem saving activity" with no change; all other rows, users and activities unchanged; hosts kept; `Valid()` preserved |
| `ActivitiesUnattend.Handle` | Application/Activities/Unattend.cs:31-56 | unknown activity is NotFound; no attendance row is success with no change and no save; a host row is BadRequest and stays; otherwise exactly that user's row for that activity is removed on a successful save, else "Problem saving activity" with no change; every other row unchanged; `Valid()` preserved |
| `ActivitiesDelete.Handle` | Application/Activities/Delete.cs:25-39 | unknown id is a plain exception "Could not find activity to delete." with no change; on a successful save exactly that activity leaves the store, with its attendance rows and comments, and every other activity is unchanged; a failed save is "Problem saving changes" with no change |
| `FollowingResolver.Resolve` | Application/Activities/FollowingResolver.cs:20-25 | a missing current user is a null dereference; otherwise true exactly when the current user has a following row whose target is the attendee's user |
| `FollowingResolver.ResolveIgnoresDestination` | Application/Activities/FollowingResolver.cs:20-24 | the result depends only on the current user and `source.AppUserId`, never on the destination or its member |
| `FollowingResolver.ResolveIsDirected` | Application/Activities/FollowingResolver.cs:24 | for every table, adding a row in which the attendee follows the current user (another user) leaves the result unchanged |
| `FollowersAdd.Handle` | Application/Followers/Add.cs:32-59 | unknown target is NotFound "Not found" with no change; a missing observer is a null dereference; an existing pair is BadRequest "Already following" with no change; otherwise exactly (observer, target) is appended on a successful save, the reverse pair's count is unchanged, and a self-follow is not rejected; a failed save is "Problem saving following"; `Valid()` preserved |
| `Domain.FollowerRows` | Application/Followers/List.cs:44 | the rows kept are exactly the table's rows whose target is the user |
| `Domain.FollowingRows` | Application/Followers/List.cs:51 | the rows kept are exactly the table's rows whose observer is the user; the same rows are the current user's `Followings` in FollowingResolver.cs:24 |
| `FollowersList.ReadProfiles` | Application/Followers/List.cs:45-48 | one profile per row, in row order: the profile read for that row's chosen end |
| `FollowersList.Handle` | Application/Followers/List.cs:35-60 | "followers" gives the observers' profiles of the rows targeting the user, "following" the targets' profiles of the rows the user observes, one per row in row order; any other predicate gives the empty list; the database is unchanged |
| `FollowersList.ListedRows` | Application/Followers/List.cs:44-55 | a row is listed as a follower row exactly when its target is the user, and as a following row exactly when its observer is the user, each as often as it occurs |
| `FollowersList.FollowListedBothWays` | Application/Followers/List.cs:43-55 | after `a` follows `b`, the pair is among `b`'s followers and among `a`'s followings |
| `PhotosAdd.Handle` | Application/Photos/Add.cs:34-58 | a missing user is a null dereference; the new photo takes its id and URL from the upload and is main exactly when the user had no main photo; it is appended and the existing photos keep their flags; returned when the save succeeds, else "Problem saving activity" with no change; exactly one main photo is preserved, the empty-to-one case included |
| `PhotosDelete.Handle` | Application/Photos/Delete.cs:34-57 | an unknown photo is NotFound, the main photo is BadRequest "Cannot delete main photo", a failed photo-store deletion is "Problem deleting photo", all with no change; on a successful save exactly that photo is removed and the rest keep their order and flags; `Valid()` preserved |
| `PhotosSetMain.Handle` | Application/Photos/SetMain.cs:32-51 | an unknown photo is NotFound; with no main photo the handler dereferences null; on success the chosen photo is main, the former main one is not unless it is the chosen one, ids, URLs, order and all other flags are kept, exactly one main photo is preserved, and choosing the already-main photo changes nothing |
| `PhotosSetMain.MainPreserved` | Application/Photos/SetMain.cs:43-45 | moving the main flag from the only main photo to another keeps exactly one main photo |
| `Domain.FindPhoto` | Application/Photos/Delete.cs:40 | the position of the first photo with the id, or none exactly when no photo has it |
| `Domain.FindMain` | Application/Photos/SetMain.cs:43 | the position of the first main photo, or none exactly when no photo is main |
| `Domain.CountMainZero` | Application/Photos/Add.cs:48 | no photo is main exactly when the main count is zero |
| `Domain.CountMainAppend` | Application/Photos/Add.cs:52 | appending a photo adds its flag to the main count |
| `Domain.CountMainUpdate` | Application/Photos/SetMain.cs:44-45 | replacing one photo changes the main count by the difference of the two flags |
| `Domain.CountMainRemove` | Application/Photos/Delete.cs:51 | removing one photo lowers the main count by its flag |
| `Domain.MainExists` | Application/Profiles/Details.cs:35 | under the invariant, a user with photos has a main photo |
| `Domain.OnlyMain` | Application/Photos/SetMain.cs:43-45 | under the invariant, the main photo found is the only one flagged |
| `Domain.AttendanceAtMostOne` | Application/Activities/Attend.cs:42-43 | without duplicate attendance, the `SingleOrDefault` query meets at most one row |
| `Domain.FollowingAtMostOnce` | Application/Followers/Add.cs:40 | without duplicate following pairs, the `SingleOrDefault` query meets at most one row |
| `CommentsCreate.Handle` | Application/Comments/Create.cs:36-57 | unknown activity is NotFound "Not found." with no change; on a successful save one comment is appended to that activity, carrying the body, the author found by user name (absent when there is none) and the given time, with every other activity and earlier comment unchanged; a failed save is "Problem saving activity" with no change |
| `ProfilesEdit.CommandValidator` | Application/Profiles/Edit.cs:25-31 | a display name fails exactly when every character is .NET white space (`IsWhiteSpace` lists the Unicode White_Space set), so the empty name fails and a passing name is non-empty |
| `ProfilesEdit.EmptyDisplayNameRejected` | Application/Profiles/Edit.cs:29 | the empty and the blank display name are rejected, and a name with a letter passes |
| `ProfilesEdit.Handle` | Application/Profiles/Edit.cs:44-64 | another user's name is Unauthorized; an unknown user is Unauthorized "Not found. "; a failed update is InternalServerError "Could not update the user." with no change; otherwise only that user's display name and bio change |
| `ProfilesEdit.Send` | Application/Profiles/Edit.cs:25-64 | the validator runs first: a blank display name is BadRequest "'Display Name' must not be empty." with no change; for a valid name each outcome of `Handle` follows: Unauthorized for another user's name or an unknown user, InternalServerError on a failed update, and otherwise only that user's display name and bio change; a stored display name always passes the validator |
| `ProfilesDetails.Handle` | Application/Profiles/Details.cs:27-39 | an unknown user is a null dereference; otherwise display name, user name, bio and photos are copied and the image is the URL of the first main photo, absent when none is main |
| `ProfilesDetails.ImageAbsentIffNoPhotos` | Application/Profiles/Details.cs:35 | under the one-main-photo invariant, the image is absent exactly when the user has no photos |
| `Scenarios.AttendTwice` | Application/Activities/Attend.cs:42-53 | a second attend by the same user after a successful one is BadRequest "Already attending this activity." and adds nothing |
| `Scenarios.AttendThenUnattend` | Application/Activities/Unattend.cs:44-50 | attend and then unattend by a user not attending before gives back the original attendance rows |
| `Scenarios.UnattendTwice` | Application/Activities/Unattend.cs:44-45 | a second unattend succeeds and changes nothing |
| `Scenarios.FollowTwice` | Application/Followers/Add.cs:40-52 | a second follow of the same user is BadRequest "Already following" and adds nothing |
| `Scenarios.EditTwice` | Application/Profiles/Edit.cs:53-54 | editing twice with the same values leaves the same state as editing once |
| `Seqs.Filter` | Application/Followers/List.cs:44 | the kept elements are exactly those of the input satisfying the predicate, and there are no more of them than input elements |
| `Seqs.FilterCount` | Application/Followers/List.cs:44 | a kept element occurs as often as in the input, a dropped one not at all |
| `Seqs.FilterAppend` | client-app/src/app/stores/profileStore.ts:200-202 | filtering a concatenation is concatenating the filtered parts, so the kept elements keep their relative order |
| `Seqs.FirstIndex` | Application/Photos/SetMain.cs:38 | the first position satisfying the predicate, or none exactly when none does |
| `ClientProfileStore.MainIndex` | client-app/src/app/stores/profileStore.ts:181 | the position of the first main photo, or none exactly when no photo is main |
| `ClientProfileStore.PhotoIndex` | client-app/src/app/stores/profileStore.ts:182 | the position of the first photo with the id, or none exactly when no photo has it |
| `ClientProfileStore.WithoutPhoto` | client-app/src/app/stores/profileStore.ts:200-202 | the photos kept are exactly those whose id differs |
| `ClientProfileStore.ProfileStore.constructor` | client-app/src/app/stores/profileStore.ts:10-33 | no profile, no followings, tab 0, `loadingProfile` on and the other busy flags off |
| `ClientProfileStore.TabPredicate` | client-app/src/app/stores/profileStore.ts:16-17 | a predicate is chosen exactly for tabs 3 and 4 |
| `ClientProfileStore.WithoutPhotoKeepsOthers` | client-app/src/app/stores/profileStore.ts:200-202 | deleting by id keeps exactly the photos with other ids, each as often as before, in their order |
| `ClientProfileStore.MovedMain` | client-app/src/app/stores/profileStore.ts:181-182 | the chosen photo ends main, the former main photo ends not main unless it is the chosen one, and ids, URLs and all other photos are kept |
| `ClientProfileStore.MovedMainSame` | client-app/src/app/stores/profileStore.ts:181-182 | choosing the photo that is already main leaves the photos as they were |
| `ClientProfileStore.IndexOfSameIds` | client-app/src/app/stores/profileStore.ts:181-182 | clearing one main flag does not move where the chosen id is found |
| `ClientProfileStore.ProfileStore.IsCurrentUser` | client-app/src/app/stores/profileStore.ts:35-41 | true exactly when both the user and the profile exist and have the same user name; follow, unfollow, loading followings, switching tabs, uploading, choosing the main photo and deleting leave it as it was (their `IsCurrentUser() == old(IsCurrentUser())` clauses), and a successful update with a signed-in user makes it true exactly when the submitted user name is the signed-in user's |
| `ClientProfileStore.ProfileStore.Follow` | client-app/src/app/stores/profileStore.ts:64-80 | on success with a profile, `following` becomes true and the follower count grows by one; otherwise the profile is unchanged; `loading` ends false |
| `ClientProfileStore.ProfileStore.Unfollow` | client-app/src/app/stores/profileStore.ts:82-98 | on success with a profile, `following` becomes false and the follower count drops by one; otherwise the profile is unchanged; `loading` ends false |
| `ClientProfileStore.ProfileStore.FollowThenUnfollow` | client-app/src/app/stores/profileStore.ts:68-71 | follow and then unfollow, both acknowledged, gives back the follower count |
| `ClientProfileStore.ProfileStore.LoadFollowings` | client-app/src/app/stores/profileStore.ts:100-116 | asks for the shown profile's user name with the predicate (nothing without a profile) and stores the response; `loading` ends false |
| `ClientProfileStore.ProfileStore.SetActiveTab` | client-app/src/app/stores/profileStore.ts:13-23 | the reaction runs only when the tab changes: tab 3 requests "followers", tab 4 "following" (no request without a profile, where `loadFollowings` throws), any other tab clears the list and leaves `loading` alone |
| `ClientProfileStore.ProfileStore.UpdateProfile` | client-app/src/app/stores/profileStore.ts:134-150 | on success with a signed-in user, the user takes the new display name and the profile becomes the submitted one, so the profile is the user's own exactly when the submitted user name is theirs; otherwise nothing changes; `loadingProfile` ends false |
| `ClientProfileStore.ProfileStore.UploadPhoto` | client-app/src/app/stores/profileStore.ts:152-173 | with a profile, the uploaded photo is appended, and the profile's and user's images become its URL only when it is main and a user is signed in; `uploadingPhoto` ends false |
| `ClientProfileStore.ProfileStore.SetMainPhoto` | client-app/src/app/stores/profileStore.ts:175-193 | on success the user's image becomes the URL; then the first main photo is cleared, the chosen photo becomes main and the profile's image becomes the URL; ids and URLs are kept; a missing user, profile, main photo or chosen photo stops it at that step; `loading` ends false |
| `ClientProfileStore.ProfileStore.DeletePhoto` | client-app/src/app/stores/profileStore.ts:195-212 | on success every photo with that id is gone and the others stay in order; `loading` ends false |
| `ClientActivityStore.BeforeFirstDot` | client-app/src/app/stores/activityStore.ts:98 | the part of the date before the first '.': a prefix with no '.', which ends where the first '.' is |
| `ClientActivityStore.BeforeFirstDotIdempotent` | client-app/src/app/stores/activityStore.ts:98 | truncating twice is truncating once, and a date with no '.' is kept |
| `ClientActivityStore.Truncated` | client-app/src/app/stores/activityStore.ts:98 | only the date changes, to a prefix with no '.' |
| `ClientActivityStore.Loaded` | client-app/src/app/stores/activityStore.ts:97-100 | every loaded activity's id is a key, each entry sits under its own id, and no stored date has a '.' |
| `ClientActivityStore.LoadedKeys` | client-app/src/app/stores/activityStore.ts:97-100 | only ids from the response become keys |
| `ClientActivityStore.LoadedLastWins` | client-app/src/app/stores/activityStore.ts:97-100 | each key holds the last activity with that id, date truncated |
| `ClientActivityStore.NewIds` | client-app/src/app/stores/activityStore.ts:97-100 | the keys a run of `Map.set` calls appends: none already in the map, none twice, each one an id of the response, and every response id is either already a key or among them |
| `ClientActivityStore.NewIdsStep` | client-app/src/app/stores/activityStore.ts:97-100 | one more `set` appends its id to the key order exactly when the key is not there yet |
| `ClientActivityStore.SortedCons` | client-app/src/app/stores/activityStore.ts:18-22 | an activity no later than every activity of a date-ordered list can go in front of it |
| `ClientActivityStore.InsertByDate` | client-app/src/app/stores/activityStore.ts:19-21 | inserting keeps the list date-ordered and adds exactly that activity |
| `ClientActivityStore.SortByDate` | client-app/src/app/stores/activityStore.ts:19-21 | the result is ordered by ascending date and is a permutation of the input |
| `ClientActivityStore.WithoutKey` | client-app/src/app/stores/activityStore.ts:57 | the keys kept are exactly those other than the removed one |
| `ClientActivityStore.ActivityStore.Valid` | client-app/src/app/stores/activityStore.ts:9 | the iteration order lists every key of the registry once and nothing else, and each entry is stored under its own activity's id; every action keeps it |
| `ClientActivityStore.ActivityStore.constructor` | client-app/src/app/stores/activityStore.ts:9-16 | an empty registry, no selection, edit mode and flags off, empty target; `Valid()` holds |
| `ClientActivityStore.ValuesInOrder` | client-app/src/app/stores/activityStore.ts:19 | one value per key, in key order |
| `ClientActivityStore.ActivityStore.Values` | client-app/src/app/stores/activityStore.ts:19 | exactly the registry's values, one per key |
| `ClientActivityStore.ActivityStore.ActivitiesByDate` | client-app/src/app/stores/activityStore.ts:18-22 | a permutation of the registry's values ordered by ascending date |
| `ClientActivityStore.ActivityStore.Put` | client-app/src/app/stores/activityStore.ts:37 | `Map.set`: the key maps to the value, and a new key goes last in iteration order |
| `ClientActivityStore.ActivityStore.Remove` | client-app/src/app/stores/activityStore.ts:57 | `Map.delete`: only that key leaves, and the others keep their order |
| `ClientActivityStore.ActivityStore.CancelFormOpen` | client-app/src/app/stores/activityStore.ts:24-26 | leaves edit mode and changes nothing else |
| `ClientActivityStore.ActivityStore.CancelSelectedActivity` | client-app/src/app/stores/activityStore.ts:28-30 | clears the selection and changes nothing else |
| `ClientActivityStore.ActivityStore.CreateActivity` | client-app/src/app/stores/activityStore.ts:32-49 | on success the id maps to the activity and edit mode ends; on failure the registry is unchanged; `submitting` ends false |
| `ClientActivityStore.ActivityStore.DeleteActivity` | client-app/src/app/stores/activityStore.ts:51-68 | on success only that id leaves the registry; on failure it is unchanged; `submitting` ends false and `target` empty |
| `ClientActivityStore.ActivityStore.EditActivity` | client-app/src/app/stores/activityStore.ts:70-88 | on success the entry is overwritten, the activity is selected and edit mode ends; on failure nothing of this changes; `submitting` ends false |
| `ClientActivityStore.ActivityStore.LoadActivities` | client-app/src/app/stores/activityStore.ts:92-111 | every activity of the response is set under its id with its date cut at the first '.', entries for other ids stay, existing keys keep their place and the new ids follow them once each in order of first appearance (`NewIds`); on failure the registry is unchanged; `loadingInitial` ends false |
| `ClientActivityStore.ActivityStore.OpenCreateForm` | client-app/src/app/stores/activityStore.ts:113-116 | edit mode on and no selection |
| `ClientActivityStore.ActivityStore.OpenEditForm` | client-app/src/app/stores/activityStore.ts:118-121 | selects `registry.get(id)`, or nothing for an unknown id, and turns edit mode on |
| `ClientActivityStore.ActivityStore.SelectActivity` | client-app/src/app/stores/activityStore.ts:123-126 | selects `registry.get(id)`, or nothing for an unknown id, and turns edit mode off |

## Left out

- Cloudinary upload and deletion are inputs: the upload result, and whether the
  deletion result is null. An upload that throws is not modelled.
- `SaveChangesAsync`, `UserManager.UpdateAsync`, `DateTime.Now`, `Date.parse` and
  the profile reader are inputs. Change counting and transactions are not
  modelled.
- PhotosSetMain.Handle: `saved` is free. Choosing the photo that is already main
  sets its flag to false and back to true, so Entity Framework most likely sees
  no change, `SaveChangesAsync` returns 0 and the handler throws "Problem saving
  activity". The model allows that request to succeed. Its "changes nothing"
  clause is about the state after a successful save, not a claim that the request
  succeeds.
- async/await, `CancellationToken`, concurrency, and the blocking `.Result` in
  the following resolver have no counterpart in this sequential model.
- Application/Activities/List.cs is a query plus an AutoMapper profile that is
  not part of this model.
- The `IsActivityHost` authorization policy has no body in the source, so it is
  not modelled.
- Program.cs, Startup.cs, JwtGenerator.cs, Agent.ts, the React components and the
  controllers are hosting, cryptography, HTTP or UI. profile.ts only lends its
  field names.
- ActivitiesDelete.Handle: the removal of the activity's attendance rows and of
  its comments (held inside the activity's value) assumes Entity Framework's
  cascade delete for a required key. DataContext.cs and Comment.cs are not part
  of this model.
- User names are compared exactly. Identity's normalisation of user names is not
  modelled, and the separate user id is identified with the user name.
- CommentsCreate.Handle: returns the stored comment, not the `CommentDto` that
  AutoMapper builds from it.
- ProfileStore `loadProfile`, `loadUserActivities` and the `userActivities` and
  `loadingActivities` fields are not modelled.
- Toasts and `console.log` are not modelled.
- ClientProfileStore.ProfileStore.UpdateProfile: the object spread is modelled
  for the full `IProfile` that the edit form submits. A partial object merged
  field by field is not modelled.
- ClientProfileStore.ProfileStore.SetMainPhoto: photos are values in a sequence.
  The in-place mutation of shared photo objects, and any aliasing with other
  references to them, is not modelled.
- ClientActivityStore.ActivityStore.LoadActivities: the store's entry gets the
  truncated date. The response objects that the source mutates in place are not
  modelled.
- ClientActivityStore.ActivityStore.ActivitiesByDate: the contract states order
  and permutation but not stability. `Date.parse` is a total function to
  integers, so a NaN that makes the comparator inconsistent is not modelled.
- ActivityStore's unused `activities` array field is not modelled.
