/**
 * Application/Activities/Delete.cs: removes an activity. An unknown id is a
 * plain exception, not NotFound. Removing the activity removes its
 * attendance rows with it (the relationship from a row to its activity is
 * required, so the delete cascades) and its comments, which it owns.
 */
module ActivitiesDelete {
  import opened Domain
  import opened Persistence

  const CouldNotFind := "Could not find activity to delete."
  const ProblemSaving := "Problem saving changes"

  method Handle(context: DataContext, id: ActivityId, saved: bool) returns (r: Result<()>)
    modifies context
    ensures id !in old(context.activities) ==> r == Err(Exception(CouldNotFind))
    ensures id in old(context.activities) ==> r == if saved then Ok(()) else Err(Exception(ProblemSaving))
    ensures r.Ok? ==> context.activities == old(context.activities) - {id}
    ensures r.Ok? ==> forall a :: a in context.userActivities <==> a in old(context.userActivities) && a.activityId != id
    ensures r.Err? ==> context.activities == old(context.activities) && context.userActivities == old(context.userActivities)
    ensures context.users == old(context.users) && context.followings == old(context.followings)
    ensures HostsKept(old(context.userActivities), context.userActivities, context.activities)
    ensures old(context.Valid()) ==> context.Valid()
  {
    if id !in context.activities {
      return Err(Exception(CouldNotFind));
    }
    if !saved {
      return Err(Exception(ProblemSaving));
    }
    context.activities := context.activities - {id};
    context.userActivities := set a | a in context.userActivities && a.activityId != id;
    return Ok(());
  }
}
