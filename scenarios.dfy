/**
 * Properties of consecutive requests against one database context, stated
 * as methods that issue the requests in turn (each request gets its own
 * commit outcome).
 */
module Scenarios {
  import opened Domain
  import opened Persistence
  import ActivitiesAttend
  import ActivitiesUnattend
  import FollowersAdd
  import ProfilesEdit

  /** Attending twice: the first request succeeds, the second is refused as a duplicate. */
  method AttendTwice(context: DataContext, id: ActivityId, actor: UserName, now: Timestamp, later: Timestamp, saved: bool, savedAgain: bool)
    returns (first: Result<()>, second: Result<()>)
    requires context.Valid()
    modifies context
    ensures first.Ok? ==> second == Err(BadRequest(ActivitiesAttend.AlreadyAttending))
    ensures first.Ok? ==> context.userActivities == old(context.userActivities) + {UserActivity(id, actor, false, now)}
    ensures context.Valid()
  {
    first := ActivitiesAttend.Handle(context, id, actor, now, saved);
    ghost var row := UserActivity(id, actor, false, now);
    if first.Ok? {
      assert row in AttendancesOf(context.userActivities, id, actor);
      AttendanceAtMostOne(context.userActivities, id, actor);
    }
    second := ActivitiesAttend.Handle(context, id, actor, later, savedAgain);
  }

  /** Attending and then leaving, by a user who did not attend before, restores the attendance rows. */
  method AttendThenUnattend(context: DataContext, id: ActivityId, actor: UserName, now: Timestamp, saved: bool, savedAgain: bool)
    returns (first: Result<()>, second: Result<()>)
    requires context.Valid()
    modifies context
    ensures first.Ok? && savedAgain ==> second == Ok(()) && context.userActivities == old(context.userActivities)
    ensures context.users == old(context.users) && context.activities == old(context.activities)
    ensures context.Valid()
  {
    first := ActivitiesAttend.Handle(context, id, actor, now, saved);
    ghost var row := UserActivity(id, actor, false, now);
    if first.Ok? {
      assert AttendancesOf(context.userActivities, id, actor) == {row} by {
        AttendanceAtMostOne(context.userActivities, id, actor);
        assert row in AttendancesOf(context.userActivities, id, actor);
        SingletonOf(AttendancesOf(context.userActivities, id, actor), row);
      }
    }
    second := ActivitiesUnattend.Handle(context, id, actor, savedAgain);
  }

  /** Leaving twice: once the first request succeeded, the second succeeds and changes nothing. */
  method UnattendTwice(context: DataContext, id: ActivityId, actor: UserName, saved: bool, savedAgain: bool)
    returns (first: Result<()>, second: Result<()>)
    modifies context
    ensures first.Ok? ==> second == Ok(())
    ensures first.Ok? ==>
              context.userActivities == old(context.userActivities) - AttendancesOf(old(context.userActivities), id, actor)
  {
    first := ActivitiesUnattend.Handle(context, id, actor, saved);
    if first.Ok? {
      assert AttendancesOf(context.userActivities, id, actor) == {};
    }
    second := ActivitiesUnattend.Handle(context, id, actor, savedAgain);
  }

  /** Following twice: the first request succeeds, the second is refused as a duplicate. */
  method FollowTwice(context: DataContext, target: UserName, actor: UserName, saved: bool, savedAgain: bool)
    returns (first: Result<()>, second: Result<()>)
    requires context.Valid()
    modifies context
    ensures first.Ok? ==> second == Err(BadRequest(FollowersAdd.AlreadyFollowing))
    ensures first.Ok? ==> context.followings == old(context.followings) + [UserFollowing(actor, target)]
    ensures context.Valid()
  {
    first := FollowersAdd.Handle(context, target, actor, saved);
    if first.Ok? {
      FollowingAtMostOnce(context.followings, UserFollowing(actor, target));
      assert context.followings[|context.followings| - 1] == UserFollowing(actor, target);
    }
    second := FollowersAdd.Handle(context, target, actor, savedAgain);
  }

  /** Editing twice with the same values leaves the state one edit leaves. */
  method EditTwice(context: DataContext, username: UserName, displayName: string, bio: string, updated: bool, updatedAgain: bool)
    returns (first: Result<()>, second: Result<()>)
    modifies context
    ensures first.Ok? ==> second.Ok? == updatedAgain
    ensures first.Ok? ==> username in old(context.users)
    ensures first.Ok? ==>
              context.users == old(context.users)[username := old(context.users)[username].(displayName := displayName, bio := bio)]
  {
    first := ProfilesEdit.Handle(context, username, displayName, bio, username, updated);
    second := ProfilesEdit.Handle(context, username, displayName, bio, username, updatedAgain);
  }
}
