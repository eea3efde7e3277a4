/**
  The user service: registering a user, the partial update of a user's name
  and email, lookup and deletion by id.
 */
module UserService {
  import opened Wrappers
  import opened Tables
  import opened Model

  /** The user fields a request carries; absent fields are Java nulls. */
  datatype UserInput = UserInput(name: Option<string>, email: Option<string>)

  /** Some user other than `self` already holds `email`. */
  predicate EmailTaken(users: seq<User>, email: string, self: Option<int>) {
    exists u | u in users :: u.email == email && Some(u.id) != self
  }

  /**
    Registration. A user needs both a name and an email; the store refuses a
    second user with an email already in use, which surfaces as ResponseStatus.
   */
  function CreateUser(s: Store, input: UserInput): (r: Result<Saved<User>, Error>)
    ensures input.name.None? || input.email.None? ==> r == Err(Validation)
    ensures input.name.Some? && input.email.Some? ==>
      (r.Ok? <==> !EmailTaken(s.users, input.email.value, None))
    ensures input.name.Some? && input.email.Some? && EmailTaken(s.users, input.email.value, None)
      ==> r == Err(ResponseStatus)
    ensures r.Err? ==> r.error in {Validation, ResponseStatus}
    ensures r.Ok? ==>
      var u := r.value.value;
      && input.name == Some(u.name)
      && input.email == Some(u.email)
      && u.id == s.next.user
      && (Numbered(s) ==> FindUser(s, u.id).None?)
      && r.value.store == s.(users := s.users + [u], next := s.next.(user := u.id + 1))
  {
    if input.name.None? || input.email.None? then Err(Validation)
    else if EmailTaken(s.users, input.email.value, None) then Err(ResponseStatus)
    else
      var u := User(s.next.user, input.email.value, input.name.value);
      Ok(Saved(s.(users := s.users + [u], next := s.next.(user := u.id + 1)), u))
  }

  /** A patch replaces exactly the fields it supplies. */
  function MergeUser(u: User, patch: UserInput): User {
    User(u.id, patch.email.GetOr(u.email), patch.name.GetOr(u.name))
  }

  /** Partial update: the user must exist, and the merged email must not belong to another user. */
  function ChangeUser(s: Store, userId: int, patch: UserInput): (r: Result<Saved<User>, Error>)
    ensures FindUser(s, userId).None? ==> r == Err(UserNotFound)
    ensures FindUser(s, userId).Some? ==>
      var merged := MergeUser(FindUser(s, userId).value, patch);
      (r.Ok? <==> !EmailTaken(s.users, merged.email, Some(userId)))
      && (r.Err? ==> r.error == ResponseStatus)
    ensures r.Ok? ==>
      && r.value.value == MergeUser(FindUser(s, userId).value, patch)
      && FindUser(r.value.store, userId) == Some(r.value.value)
      && r.value.store == s.(users := Replace(s.users, UserId, r.value.value))
  {
    var found := FindUser(s, userId);
    if found.None? then Err(UserNotFound)
    else
      var merged := MergeUser(found.value, patch);
      if EmailTaken(s.users, merged.email, Some(userId)) then Err(ResponseStatus)
      else
        FindReplace(s.users, UserId, merged, userId);
        Ok(Saved(s.(users := Replace(s.users, UserId, merged)), merged))
  }

  function FindUserById(s: Store, userId: int): (r: Result<User, Error>)
    ensures r.Ok? <==> FindUser(s, userId).Some?
    ensures r.Ok? ==> r.value.id == userId && r.value in s.users
    ensures r.Err? ==> r.error == UserNotFound
  {
    var u := FindUser(s, userId);
    if u.None? then Err(UserNotFound) else Ok(u.value)
  }

  /** Deletion by id; deleting a missing user is refused. */
  function RemoveUser(s: Store, userId: int): (r: Result<Store, Error>)
    ensures FindUser(s, userId).None? <==> r == Err(IllegalArgument)
    ensures r.Ok? ==>
      && FindUser(r.value, userId).None?
      && (forall other | other != userId :: FindUser(r.value, other) == FindUser(s, other))
      && r.value.items == s.items && r.value.bookings == s.bookings && r.value.comments == s.comments
      && r.value.next == s.next
  {
    if FindUser(s, userId).None? then Err(IllegalArgument)
    else
      var t := s.(users := Remove(s.users, UserId, userId));
      FindRemove(s.users, UserId, userId, userId);
      assert forall other | other != userId :: FindUser(t, other) == FindUser(s, other) by {
        forall other | other != userId
          ensures FindUser(t, other) == FindUser(s, other)
        {
          FindRemove(s.users, UserId, userId, other);
        }
      }
      Ok(t)
  }

  // Properties of the partial-update merge.

  /** Applying the same patch twice is the same as applying it once. */
  lemma MergeUserIdempotent(u: User, patch: UserInput)
    ensures MergeUser(MergeUser(u, patch), patch) == MergeUser(u, patch)
  {
  }

  /** A field changes only if the patch supplies it, and then takes the supplied value. */
  lemma MergeUserFieldwise(u: User, patch: UserInput)
    ensures MergeUser(u, patch).id == u.id
    ensures MergeUser(u, patch).name != u.name ==> patch.name == Some(MergeUser(u, patch).name)
    ensures MergeUser(u, patch).email != u.email ==> patch.email == Some(MergeUser(u, patch).email)
    ensures patch.name.Some? ==> MergeUser(u, patch).name == patch.name.value
    ensures patch.email.Some? ==> MergeUser(u, patch).email == patch.email.value
    ensures patch == UserInput(None, None) ==> MergeUser(u, patch) == u
  {
  }
}
