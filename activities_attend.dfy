/** Application/Activities/Attend.cs: the current user joins an activity as a plain attendee. */
module ActivitiesAttend {
  import opened Domain
  import opened Persistence

  const CouldNotFindActivity := "Could not find activity."
  const AlreadyAttending := "Already attending this activity."
  const ProblemSaving := "Problem saving activity"

  method Handle(context: DataContext, id: ActivityId, currentUsername: UserName, now: Timestamp, saved: bool)
    returns (r: Result<()>)
    modifies context
    // the guards, in the order the handler checks them
    ensures id !in old(context.activities) ==> r == Err(NotFound(CouldNotFindActivity))
    ensures id in old(context.activities) && currentUsername !in old(context.users) ==>
              r == Err(Exception(NullReference))
    ensures id in old(context.activities) && currentUsername in old(context.users) ==>
              var existing := AttendancesOf(old(context.userActivities), id, currentUsername);
              && (|existing| == 1 ==> r == Err(BadRequest(AlreadyAttending)))
              && (|existing| > 1 ==> r == Err(Exception(MoreThanOneElement)))
              && (|existing| == 0 ==> r == if saved then Ok(()) else Err(Exception(ProblemSaving)))
    // the effect: exactly one new non-host row on success, nothing on any failure
    ensures r.Ok? ==> context.userActivities == old(context.userActivities) + {UserActivity(id, currentUsername, false, now)}
    ensures r.Ok? ==> UserActivity(id, currentUsername, false, now) !in old(context.userActivities)
    ensures r.Err? ==> context.userActivities == old(context.userActivities)
    ensures context.users == old(context.users) && context.activities == old(context.activities)
    ensures context.followings == old(context.followings)
    ensures HostsKept(old(context.userActivities), context.userActivities, context.activities)
    ensures old(context.Valid()) ==> context.Valid()
  {
    if id !in context.activities {
      return Err(NotFound(CouldNotFindActivity));
    }
    if currentUsername !in context.users {
      // `user.Id` in the attendance query dereferences the missing user
      return Err(Exception(NullReference));
    }
    var existing := AttendancesOf(context.userActivities, id, currentUsername);
    if |existing| > 1 {
      return Err(Exception(MoreThanOneElement));
    }
    if |existing| == 1 {
      return Err(BadRequest(AlreadyAttending));
    }
    var attendance := UserActivity(id, currentUsername, false, now);
    assert existing == {};
    assert attendance in context.userActivities ==> attendance in existing;
    if !saved {
      return Err(Exception(ProblemSaving));
    }
    context.userActivities := context.userActivities + {attendance};
    return Ok(());
  }
}
