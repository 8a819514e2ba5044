/**
 * Properties that relate several calls, or that say what the service does
 * NOT guarantee: update performs no email check, so it keeps emails unique
 * exactly when the patch's email is free.
 */
module UserProperties {
  import opened UserTypes
  import opened UserLifecycle

  /** Deleting the same id twice succeeds the first time and fails the second. */
  lemma DeleteTwice(users: Store, id: Id)
    requires id in users
    ensures DeleteUser(users, id).result == Ok(DeleteResult(1))
    ensures var after := DeleteUser(users, id).users;
      id !in after && DeleteUser(after, id) == Step(Err(UndefinedUserError), after)
  {
  }

  /** Get, update and delete of an absent id all fail with UndefinedUserError. */
  lemma AbsentIdFails(users: Store, c: Collaborators, id: Id, patch: UserData, now: Time)
    requires id !in users
    requires c.validUpdate(patch)
    ensures GetUser(users, id) == Err(UndefinedUserError)
    ensures UpdateUser(users, c, id, patch, now) == Step(Err(UndefinedUserError), users)
    ensures DeleteUser(users, id) == Step(Err(UndefinedUserError), users)
  {
  }

  /**
   * A successful update keeps emails unique if and only if the patch carries
   * no email, or an email no other record holds.
   */
  lemma UpdateKeepsEmailsUniqueIff(users: Store, c: Collaborators, id: Id, patch: UserData, now: Time)
    requires UniqueEmails(users)
    requires c.validUpdate(patch) && id in users
    ensures UniqueEmails(UpdateUser(users, c, id, patch, now).users) <==>
      (patch.email.None? || forall k | k in users && k != id :: users[k].email != patch.email.value)
  {
  }

  /** Two records, the second patched to the first one's email: both stay, with one email. */
  lemma UpdateCanDuplicateEmail(c: Collaborators)
    requires c.validUpdate(UserData(Some("a@x.com"), None, None, None, map[]))
    ensures var users := map[
        "1" := User("1", "a@x.com", "h1", map[], 0, 0),
        "2" := User("2", "b@x.com", "h2", map[], 0, 0)];
      var s := UpdateUser(users, c, "2", UserData(Some("a@x.com"), None, None, None, map[]), 1);
      UniqueEmails(users) && s.result.Ok? && !UniqueEmails(s.users)
  {
    var users := map[
      "1" := User("1", "a@x.com", "h1", map[], 0, 0),
      "2" := User("2", "b@x.com", "h2", map[], 0, 0)];
    var patch := UserData(Some("a@x.com"), None, None, None, map[]);
    UpdateKeepsEmailsUniqueIff(users, c, "2", patch, 1);
    assert users["1"].email == patch.email.value;
  }

  /** A password supplied in a patch is stored exactly as given, not hashed. */
  lemma UpdateStoresPasswordAsGiven(users: Store, c: Collaborators, id: Id, patch: UserData, now: Time)
    requires c.validUpdate(patch) && id in users && patch.password.Some?
    ensures UpdateUser(users, c, id, patch, now).users[id].password == patch.password.value
  {
  }

  /**
   * Create, then a second create with the same email under another fresh id:
   * the first succeeds and the second fails with UsedEmailError.
   */
  lemma SecondCreateWithSameEmailFails(users: Store, c: Collaborators, d1: UserData, d2: UserData,
                                       id1: Id, id2: Id, now: Time, now2: Time)
    requires CreateSchemaNeedsCredentials(c.validCreate)
    requires id1 !in users && id2 !in users && id1 != id2
    requires c.validCreate(d1) && c.validCreate(d2) && d1.email == d2.email
    requires !EmailInUse(users, d1.email.value)
    ensures var first := CreateUser(users, c, d1, id1, now);
      && first.result.Ok?
      && CreateUser(first.users, c, d2, id2, now2) == Step(Err(UsedEmailError), first.users)
  {
  }

  /**
   * A patch may carry `createdAt`, which the store takes as given: a record
   * can end up created after its last update.
   */
  lemma UpdateCanUnorderStamps(c: Collaborators)
    requires c.validUpdate(UserData(None, None, Some(5), None, map[]))
    ensures var users := map["1" := User("1", "a@x.com", "h1", map[], 0, 0)];
      var s := UpdateUser(users, c, "1", UserData(None, None, Some(5), None, map[]), 1);
      StampsOrdered(users) && ClockNotBehind(users, 1) && s.result.Ok? && !StampsOrdered(s.users)
  {
  }

  /** A successful update never moves a record's `updatedAt` back while the clock runs forward. */
  lemma UpdateNeverMovesUpdatedAtBack(users: Store, c: Collaborators, id: Id, patch: UserData, now: Time)
    requires ClockNotBehind(users, now)
    requires UpdateUser(users, c, id, patch, now).result.Ok?
    ensures users[id].updatedAt <= UpdateUser(users, c, id, patch, now).result.value.updatedAt
  {
  }
}
