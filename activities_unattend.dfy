/**
 * Application/Activities/Unattend.cs: the current user leaves an activity.
 * Leaving an activity one does not attend is a successful no-op; the host
 * can never leave.
 */
module ActivitiesUnattend {
  import opened Domain
  import opened Persistence

  const CouldNotFindActivity := "Could not find activity."
  const CannotRemoveHost := "You cannot remove the host from an activity."
  const ProblemSaving := "Problem saving activity"

  method Handle(context: DataContext, id: ActivityId, currentUsername: UserName, saved: bool)
    returns (r: Result<()>)
    modifies context
    ensures id !in old(context.activities) ==> r == Err(NotFound(CouldNotFindActivity))
    ensures id in old(context.activities) && currentUsername !in old(context.users) ==>
              r == Err(Exception(NullReference))
    ensures id in old(context.activities) && currentUsername in old(context.users) ==>
              var existing := AttendancesOf(old(context.userActivities), id, currentUsername);
              && (|existing| == 0 ==> r == Ok(()))
              && (|existing| > 1 ==> r == Err(Exception(MoreThanOneElement)))
              && (|existing| == 1 ==>
                    if exists a :: a in existing && a.isHost then r == Err(BadRequest(CannotRemoveHost))
                    else r == if saved then Ok(()) else Err(Exception(ProblemSaving)))
    // on success the row of (activity, user), if any, is gone and it was not a host row
    ensures r.Ok? ==>
              context.userActivities == old(context.userActivities) - AttendancesOf(old(context.userActivities), id, currentUsername)
    ensures r.Ok? ==> forall a :: a in AttendancesOf(old(context.userActivities), id, currentUsername) ==> !a.isHost
    ensures r.Err? ==> context.userActivities == old(context.userActivities)
    ensures context.users == old(context.users) && context.activities == old(context.activities)
    ensures context.followings == old(context.followings)
    ensures HostsKept(old(context.userActivities), context.userActivities, context.activities)
    ensures old(context.Valid()) ==> context.Valid()
  {
    if id !in context.activities {
      return Err(NotFound(CouldNotFindActivity));
    }
    if currentUsername !in context.users {
      return Err(Exception(NullReference));
    }
    var existing := AttendancesOf(context.userActivities, id, currentUsername);
    if |existing| > 1 {
      return Err(Exception(MoreThanOneElement));
    }
    if |existing| == 0 {
      return Ok(());
    }
    var attendance :| attendance in existing;
    SingletonOf(existing, attendance);
    if attendance.isHost {
      return Err(BadRequest(CannotRemoveHost));
    }
    if !saved {
      return Err(Exception(ProblemSaving));
    }
    context.userActivities := context.userActivities - {attendance};
    return Ok(());
  }
}
