/**
 * The database context the handlers share. Its fields are the committed
 * contents of the tables: a handler changes them only when the commit
 * (`SaveChangesAsync() > 0`, supplied by the caller as `saved`) reports
 * that its change was persisted.
 */
module Persistence {
  import opened Domain

  class DataContext {
    var users: map<UserName, AppUser>
    var activities: map<ActivityId, Activity>
    var userActivities: set<UserActivity>
    var followings: seq<UserFollowing>

    /** The store-wide invariants every handler preserves. */
    ghost predicate Valid()
      reads this
    {
      && AttendanceUnique(userActivities)
      && AttendanceOfKnownActivities(userActivities, activities)
      && NoDuplicateFollowing(followings)
      && MainPhotoInvariant(users)
    }

    constructor (users: map<UserName, AppUser>, activities: map<ActivityId, Activity>,
                 userActivities: set<UserActivity>, followings: seq<UserFollowing>)
      ensures this.users == users && this.activities == activities
      ensures this.userActivities == userActivities && this.followings == followings
    {
      this.users := users;
      this.activities := activities;
      this.userActivities := userActivities;
      this.followings := followings;
    }
  }
}
