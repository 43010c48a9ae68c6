/**
 * Application/Profiles/Edit.cs: the command validator and the handler that
 * lets users change their own display name and bio. `updated` is whether
 * the identity store's update succeeded.
 */
module ProfilesEdit {
  import opened Domain
  import opened Persistence

  const NotAuthorized := "Not authorized to edit another user's profile."
  const UserNotFound := "Not found. "
  const CouldNotUpdate := "Could not update the user."
  const DisplayNameEmpty := "'Display Name' must not be empty."

  /** The characters .NET's `char.IsWhiteSpace` accepts (the Unicode White_Space set). */
  predicate IsWhiteSpace(c: char)
  {
    || ('\U{0009}' <= c <= '\U{000D}') || c == '\U{0020}' || c == '\U{0085}' || c == '\U{00A0}'
    || c == '\U{1680}' || ('\U{2000}' <= c <= '\U{200A}') || c == '\U{2028}' || c == '\U{2029}'
    || c == '\U{202F}' || c == '\U{205F}' || c == '\U{3000}'
  }

  /** `RuleFor(x => x.DisplayName).NotEmpty()`: a string passes unless empty or all white space. */
  predicate CommandValidator(displayName: string): (valid: bool)
    ensures !valid <==> forall k :: 0 <= k < |displayName| ==> IsWhiteSpace(displayName[k])
    ensures valid ==> |displayName| > 0
  {
    exists k :: 0 <= k < |displayName| && !IsWhiteSpace(displayName[k])
  }

  lemma EmptyDisplayNameRejected()
    ensures !CommandValidator("") && !CommandValidator("  \t") && CommandValidator(" Bob ")
  {
    assert !IsWhiteSpace(" Bob "[1]);
  }

  method Handle(context: DataContext, username: UserName, displayName: string, bio: string,
                currentUsername: UserName, updated: bool)
    returns (r: Result<()>)
    modifies context
    ensures username != currentUsername ==> r == Err(Unauthorized(NotAuthorized))
    ensures username == currentUsername && username !in old(context.users) ==> r == Err(Unauthorized(UserNotFound))
    ensures username == currentUsername && username in old(context.users) ==>
              r == if updated then Ok(()) else Err(InternalServerError(CouldNotUpdate))
    // only the display name and the bio of that user change
    ensures r.Ok? ==>
              context.users == old(context.users)[username := old(context.users)[username].(displayName := displayName, bio := bio)]
    ensures r.Err? ==> context.users == old(context.users)
    ensures context.activities == old(context.activities) && context.userActivities == old(context.userActivities)
    ensures context.followings == old(context.followings)
    ensures old(context.Valid()) ==> context.Valid()
  {
    if username != currentUsername {
      return Err(Unauthorized(NotAuthorized));
    }
    if username !in context.users {
      return Err(Unauthorized(UserNotFound));
    }
    var user := context.users[username];
    user := user.(displayName := displayName, bio := bio);
    if !updated {
      return Err(InternalServerError(CouldNotUpdate));
    }
    context.users := context.users[username := user];
    return Ok(());
  }

  /** The request pipeline: the validator runs before the handler and answers Bad Request on failure. */
  method Send(context: DataContext, username: UserName, displayName: string, bio: string,
              currentUsername: UserName, updated: bool)
    returns (r: Result<()>)
    modifies context
    ensures !CommandValidator(displayName) ==> r == Err(BadRequest(DisplayNameEmpty)) && context.users == old(context.users)
    // a valid name goes on to the handler, with each of its outcomes
    ensures CommandValidator(displayName) && username != currentUsername ==> r == Err(Unauthorized(NotAuthorized))
    ensures CommandValidator(displayName) && username == currentUsername && username !in old(context.users) ==>
              r == Err(Unauthorized(UserNotFound))
    ensures CommandValidator(displayName) && username == currentUsername && username in old(context.users) ==>
              r == if updated then Ok(()) else Err(InternalServerError(CouldNotUpdate))
    ensures r.Ok? ==>
              context.users == old(context.users)[username := old(context.users)[username].(displayName := displayName, bio := bio)]
    ensures r.Err? ==> context.users == old(context.users)
    ensures r.Ok? ==> username in context.users && CommandValidator(context.users[username].displayName)
    ensures context.activities == old(context.activities) && context.userActivities == old(context.userActivities)
    ensures context.followings == old(context.followings)
    ensures old(context.Valid()) ==> context.Valid()
  {
    if !CommandValidator(displayName) {
      return Err(BadRequest(DisplayNameEmpty));
    }
    r := Handle(context, username, displayName, bio, currentUsername, updated);
  }
}
