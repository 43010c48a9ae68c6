/**
 * Domain entities of the backend and the rules about them that several
 * handlers share: the typed errors a handler can raise, the photo queries
 * (`Photos.FirstOrDefault(p => p.Id == id)`, `Photos.FirstOrDefault(p => p.IsMain)`)
 * and the store-wide invariants (unique attendance per activity and user, no
 * duplicate following pair, exactly one main photo per user with photos).
 *
 * Users are identified by their user name: the identity tables hold a
 * separate Id column, but it is in one-to-one correspondence with the unique
 * user name, so attendance and following rows refer to user names here.
 */
module Domain {
  import opened Wrappers
  import Seqs

  type UserName = string
  type ActivityId = string
  type PhotoId = string
  /** `DateTime.Now`, as an opaque comparable value supplied by the caller. */
  type Timestamp = int

  datatype Photo = Photo(id: PhotoId, url: string, isMain: bool)

  /** An AppUser; its user name is the key of the users table. */
  datatype AppUser = AppUser(displayName: string, bio: string, photos: seq<Photo>)

  /** An attendance row of the UserActivities table. */
  datatype UserActivity = UserActivity(activityId: ActivityId, appUserId: UserName, isHost: bool, dateJoined: Timestamp)

  /** A directed following row: `observerId` follows `targetId`. */
  datatype UserFollowing = UserFollowing(observerId: UserName, targetId: UserName)

  /** A comment; the author is absent when the request's user name matched no user. */
  datatype Comment = Comment(author: Option<UserName>, activityId: ActivityId, body: string, createdAt: Timestamp)

  /** An activity: only its ordered comment collection takes part in the handlers. */
  datatype Activity = Activity(comments: seq<Comment>)

  /** The profile projection of a user. */
  datatype Profile = Profile(displayName: string, username: UserName, image: Option<string>, photos: seq<Photo>, bio: string)

  /** What the photo store returns for an upload. */
  datatype PhotoUploadResult = PhotoUploadResult(publicId: PhotoId, url: string)

  /** The typed failures of a handler: a RestException with its status code, or a plain exception. */
  datatype Error =
    | NotFound(message: string)
    | BadRequest(message: string)
    | Unauthorized(message: string)
    | InternalServerError(message: string)
    | Exception(message: string)

  datatype Result<+T> = Ok(value: T) | Err(error: Error)

  /** The message of the NullReferenceException raised by dereferencing a missing entity. */
  const NullReference := "Object reference not set to an instance of an object."
  /** The message of the exception `SingleOrDefault` raises when more than one row matches. */
  const MoreThanOneElement := "Sequence contains more than one matching element"

  // ---------------------------------------------------------------- photos

  /** `Photos.FirstOrDefault(p => p.Id == id)`, as a position. */
  function FindPhoto(photos: seq<Photo>, id: PhotoId): (r: Option<nat>)
    ensures r.Some? ==> r.value < |photos| && photos[r.value].id == id
    ensures r.Some? ==> forall j :: 0 <= j < r.value ==> photos[j].id != id
    ensures r.None? <==> forall j :: 0 <= j < |photos| ==> photos[j].id != id
  {
    Seqs.FirstIndex(photos, (p: Photo) => p.id == id)
  }

  /** `Photos.FirstOrDefault(p => p.IsMain)`, as a position. */
  function FindMain(photos: seq<Photo>): (r: Option<nat>)
    ensures r.Some? ==> r.value < |photos| && photos[r.value].isMain
    ensures r.Some? ==> forall j :: 0 <= j < r.value ==> !photos[j].isMain
    ensures r.None? <==> forall j :: 0 <= j < |photos| ==> !photos[j].isMain
  {
    Seqs.FirstIndex(photos, (p: Photo) => p.isMain)
  }

  function MainBit(p: Photo): nat { if p.isMain then 1 else 0 }

  /** The number of photos flagged as main. */
  function CountMain(photos: seq<Photo>): nat
  {
    if photos == [] then 0 else MainBit(photos[0]) + CountMain(photos[1..])
  }

  /** The invariant on a user's photos: exactly one main photo whenever there is a photo. */
  ghost predicate ExactlyOneMain(photos: seq<Photo>)
  {
    photos != [] ==> CountMain(photos) == 1
  }

  lemma {:induction false} CountMainZero(photos: seq<Photo>)
    ensures CountMain(photos) == 0 <==> forall j :: 0 <= j < |photos| ==> !photos[j].isMain
  {
    if photos != [] {
      CountMainZero(photos[1..]);
      assert forall j :: 1 <= j < |photos| ==> photos[j] == photos[1..][j - 1];
    }
  }

  lemma {:induction false} CountMainAppend(photos: seq<Photo>, p: Photo)
    ensures CountMain(photos + [p]) == CountMain(photos) + MainBit(p)
  {
    if photos == [] {
      assert photos + [p] == [p];
    } else {
      assert (photos + [p])[1..] == photos[1..] + [p];
      CountMainAppend(photos[1..], p);
    }
  }

  lemma {:induction false} CountMainUpdate(photos: seq<Photo>, i: nat, p: Photo)
    requires i < |photos|
    ensures CountMain(photos[i := p]) + MainBit(photos[i]) == CountMain(photos) + MainBit(p)
  {
    if i > 0 {
      assert photos[i := p][1..] == photos[1..][i - 1 := p];
      CountMainUpdate(photos[1..], i - 1, p);
    }
  }

  lemma {:induction false} CountMainRemove(photos: seq<Photo>, i: nat)
    requires i < |photos|
    ensures CountMain(photos[..i] + photos[i + 1..]) + MainBit(photos[i]) == CountMain(photos)
  {
    if i == 0 {
      assert photos[..i] + photos[i + 1..] == photos[1..];
    } else {
      var rest := photos[1..];
      assert photos[..i] + photos[i + 1..] == [photos[0]] + (rest[..i - 1] + rest[i..]);
      CountMainRemove(rest, i - 1);
    }
  }

  /** Under the invariant, a user with photos has a main photo to find. */
  lemma MainExists(photos: seq<Photo>)
    requires ExactlyOneMain(photos) && photos != []
    ensures FindMain(photos).Some?
  {
    CountMainZero(photos);
  }

  /** Under the invariant, the main photo found is the only one flagged. */
  lemma {:induction false} OnlyMain(photos: seq<Photo>, m: nat)
    requires CountMain(photos) == 1 && m < |photos| && photos[m].isMain
    ensures forall j :: 0 <= j < |photos| && j != m ==> !photos[j].isMain
  {
    CountMainRemove(photos, m);
    var rest := photos[..m] + photos[m + 1..];
    CountMainZero(rest);
    forall j | 0 <= j < |photos| && j != m
      ensures !photos[j].isMain
    {
      if j < m { assert photos[j] == rest[j]; } else { assert photos[j] == rest[j - 1]; }
    }
  }

  // ------------------------------------------------------- attendance rows

  /** The rows `UserActivities.SingleOrDefault(x => x.ActivityId == activityId && x.AppUserId == user)` ranges over. */
  function AttendancesOf(rows: set<UserActivity>, activityId: ActivityId, user: UserName): set<UserActivity>
  {
    set a | a in rows && a.activityId == activityId && a.appUserId == user
  }

  /** At most one attendance row per (activity, user). */
  ghost predicate AttendanceUnique(rows: set<UserActivity>)
  {
    forall a, b :: a in rows && b in rows && a.activityId == b.activityId && a.appUserId == b.appUserId ==> a == b
  }

  /** Every attendance row belongs to an activity of the store. */
  ghost predicate AttendanceOfKnownActivities(rows: set<UserActivity>, activities: map<ActivityId, Activity>)
  {
    forall a :: a in rows ==> a.activityId in activities
  }

  /** No host row of a still existing activity disappears between `before` and `after`. */
  ghost predicate HostsKept(before: set<UserActivity>, after: set<UserActivity>, activities: map<ActivityId, Activity>)
  {
    forall a :: a in before && a.isHost && a.activityId in activities ==> a in after
  }

  lemma AttendanceAtMostOne(rows: set<UserActivity>, activityId: ActivityId, user: UserName)
    requires AttendanceUnique(rows)
    ensures |AttendancesOf(rows, activityId, user)| <= 1
  {
    var s := AttendancesOf(rows, activityId, user);
    if s != {} {
      var a :| a in s;
      assert s == {a};
    }
  }

  /** A set of one element is that element's singleton. */
  lemma SingletonOf<T>(s: set<T>, x: T)
    requires |s| == 1 && x in s
    ensures s == {x}
  {
    assert |s - {x}| == 0;
  }

  // --------------------------------------------------------- following rows

  ghost predicate NoDuplicateFollowing(rows: seq<UserFollowing>)
  {
    forall i, j :: 0 <= i < j < |rows| ==> rows[i] != rows[j]
  }

  /** The rows whose target is `target` (its followers), in row order. */
  function FollowerRows(rows: seq<UserFollowing>, target: UserName): (r: seq<UserFollowing>)
    ensures forall f :: f in r <==> f in rows && f.targetId == target
  {
    Seqs.Filter(rows, (f: UserFollowing) => f.targetId == target)
  }

  /** The rows whose observer is `observer` (the users it follows), in row order. */
  function FollowingRows(rows: seq<UserFollowing>, observer: UserName): (r: seq<UserFollowing>)
    ensures forall f :: f in r <==> f in rows && f.observerId == observer
  {
    Seqs.Filter(rows, (f: UserFollowing) => f.observerId == observer)
  }

  /** Without duplicates, `SingleOrDefault` over the following rows meets at most one match. */
  lemma {:induction false} FollowingAtMostOnce(rows: seq<UserFollowing>, f: UserFollowing)
    requires NoDuplicateFollowing(rows)
    ensures multiset(rows)[f] <= 1
  {
    if rows != [] {
      assert rows == [rows[0]] + rows[1..];
      FollowingAtMostOnce(rows[1..], f);
      if rows[0] == f {
        assert forall j :: 0 <= j < |rows[1..]| ==> rows[1..][j] == rows[j + 1] != rows[0];
        assert f !in rows[1..];
      }
    }
  }

  // ------------------------------------------------------------- the users

  ghost predicate MainPhotoInvariant(users: map<UserName, AppUser>)
  {
    forall u :: u in users ==> ExactlyOneMain(users[u].photos)
  }
}
