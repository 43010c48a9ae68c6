/**
 * Application/Comments/Create.cs: appends a comment to an activity. The
 * author is the user the request names, absent when no user has that name.
 * The created comment is what the handler maps to its result.
 */
module CommentsCreate {
  import opened Wrappers
  import opened Domain
  import opened Persistence

  const NotFoundMessage := "Not found."
  const ProblemSaving := "Problem saving activity"

  method Handle(context: DataContext, body: string, activityId: ActivityId, username: UserName, now: Timestamp, saved: bool)
    returns (r: Result<Comment>)
    modifies context
    ensures activityId !in old(context.activities) ==> r == Err(NotFound(NotFoundMessage))
    ensures activityId in old(context.activities) ==> r.Ok? == saved
    ensures activityId in old(context.activities) && !saved ==> r == Err(Exception(ProblemSaving))
    ensures r.Ok? ==>
              && r.value.body == body && r.value.activityId == activityId && r.value.createdAt == now
              && r.value.author == (if username in old(context.users) then Some(username) else None)
    // appended after the existing comments of that activity; nothing else changes
    ensures r.Ok? ==>
              context.activities == old(context.activities)[activityId := Activity(old(context.activities)[activityId].comments + [r.value])]
    ensures r.Err? ==> context.activities == old(context.activities)
    ensures context.users == old(context.users) && context.userActivities == old(context.userActivities)
    ensures context.followings == old(context.followings)
    ensures old(context.Valid()) ==> context.Valid()
  {
    if activityId !in context.activities {
      return Err(NotFound(NotFoundMessage));
    }
    var activity := context.activities[activityId];
    var author := if username in context.users then Some(username) else None;
    var comment := Comment(author, activityId, body, now);
    if !saved {
      return Err(Exception(ProblemSaving));
    }
    context.activities := context.activities[activityId := activity.(comments := activity.comments + [comment])];
    return Ok(comment);
  }
}
