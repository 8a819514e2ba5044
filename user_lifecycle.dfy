/**
 * The five operations of the user-lifecycle service as transitions of the
 * user store: each takes the store before the call and yields the reply
 * together with the store after it.
 */
module UserLifecycle {
  import opened UserTypes

  /** The reply of one call and the store it leaves behind. */
  datatype Step<T> = Step(result: Result<T>, users: Store)

  /** Listing: every stored record, none lost and none merged. */
  function AllUsers(users: Store): (all: set<User>)
    ensures forall k | k in users :: users[k] in all
    ensures forall u | u in all :: exists k | k in users :: users[k] == u
    ensures Keyed(users) ==> |all| == |users|
  {
    ValuesOfKeyedStore(users);
    users.Values
  }

  /** In a keyed store no two ids hold the same record, so listing loses none. */
  lemma {:induction false} ValuesOfKeyedStore(users: Store)
    ensures Keyed(users) ==> |users.Values| == |users|
    decreases |users|
  {
    if Keyed(users) && users != map[] {
      var k :| k in users;
      var rest := users - {k};
      assert |rest| == |users| - 1;
      ValuesOfKeyedStore(rest);
      forall v | v in users.Values ensures v in rest.Values + {users[k]} {
        var j :| j in users && users[j] == v;
        if j != k { assert rest[j] == v; }
      }
      forall v | v in rest.Values ensures v in users.Values && v != users[k] {
        var j :| j in rest && rest[j] == v;
        assert users[j] == v && v.id == j;
      }
      assert users.Values == rest.Values + {users[k]};
    }
  }

  /**
   * Create: validate, refuse an email already in use, hash the password,
   * stamp both timestamps, insert under the fresh id.
   */
  function CreateUser(users: Store, c: Collaborators, data: UserData, newId: Id, now: Time): (s: Step<User>)
    requires newId !in users
    requires CreateSchemaNeedsCredentials(c.validCreate)
    // validation comes first and touches nothing
    ensures !c.validCreate(data) ==> s == Step(Err(ValidationError), users)
    // then the email lookup, which also touches nothing
    ensures c.validCreate(data) && EmailInUse(users, data.email.value) ==> s == Step(Err(UsedEmailError), users)
    ensures s.result.Ok? <==> c.validCreate(data) && !EmailInUse(users, data.email.value)
    // exactly one record added, every existing one left as it was
    ensures s.result.Ok? ==>
      && s.users.Keys == users.Keys + {newId}
      && (forall k | k in users :: s.users[k] == users[k])
      && s.users[newId] == s.result.value
    // the new record: hashed password, other fields copied, one clock reading
    // for both stamps (any stamps in the body are overridden)
    ensures s.result.Ok? ==>
      var u := s.result.value;
      && u.id == newId
      && u.email == data.email.value
      && u.password == c.hash(data.password.value)
      && u.profile == data.profile
      && u.createdAt == now && u.updatedAt == now
    ensures UniqueEmails(users) ==> UniqueEmails(s.users)
    ensures Keyed(users) ==> Keyed(s.users)
    ensures StampsOrdered(users) ==> StampsOrdered(s.users)
    ensures ClockNotBehind(users, now) ==> ClockNotBehind(s.users, now)
    ensures PasswordsHashed(users, c.hash) ==> PasswordsHashed(s.users, c.hash)
  {
    if !c.validCreate(data) then
      Step(Err(ValidationError), users)
    else if EmailInUse(users, data.email.value) then
      Step(Err(UsedEmailError), users)
    else
      var user := User(newId, data.email.value, c.hash(data.password.value), data.profile, now, now);
      Step(Ok(user), users[newId := user])
  }

  /** Get by id: the stored record as it is, or UndefinedUserError. */
  function GetUser(users: Store, id: Id): (r: Result<User>)
    ensures r.Ok? <==> id in users
    ensures r.Ok? ==> r.value == users[id]
    ensures r.Err? ==> r.error == UndefinedUserError
  {
    if id in users then Ok(users[id]) else Err(UndefinedUserError)
  }

  /**
   * `after` is `before` with the patch applied field by field: a field the
   * patch carries takes the patch's value (a password as given, not hashed,
   * and a `createdAt` as given), every other field keeps its value, and
   * `updatedAt` becomes `now` whatever the patch says.
   */
  ghost predicate Patched(before: User, patch: UserData, now: Time, after: User) {
    && after.id == before.id
    && after.createdAt == (if patch.createdAt.Some? then patch.createdAt.value else before.createdAt)
    && after.updatedAt == now
    && after.email == (if patch.email.Some? then patch.email.value else before.email)
    && after.password == (if patch.password.Some? then patch.password.value else before.password)
    && after.profile.Keys == before.profile.Keys + patch.profile.Keys
    && (forall f | f in patch.profile :: after.profile[f] == patch.profile[f])
    && (forall f | f in before.profile && f !in patch.profile :: after.profile[f] == before.profile[f])
  }

  /** The patch sets no `createdAt` later than the clock reading `now`. */
  predicate StampFits(patch: UserData, now: Time) {
    patch.createdAt.Some? ==> patch.createdAt.value <= now
  }

  /** The store's merge of a patch and a fresh `updatedAt` into a record. */
  function Merge(before: User, patch: UserData, now: Time): (after: User)
    ensures Patched(before, patch, now, after)
  {
    before.(
      email := if patch.email.Some? then patch.email.value else before.email,
      password := if patch.password.Some? then patch.password.value else before.password,
      createdAt := if patch.createdAt.Some? then patch.createdAt.value else before.createdAt,
      profile := before.profile + patch.profile,
      updatedAt := now)
  }

  /**
   * Update by id: validate the patch, then find-merge-restamp in one store
   * call; no email check and no hashing.
   */
  function UpdateUser(users: Store, c: Collaborators, id: Id, patch: UserData, now: Time): (s: Step<User>)
    ensures !c.validUpdate(patch) ==> s == Step(Err(ValidationError), users)
    ensures c.validUpdate(patch) && id !in users ==> s == Step(Err(UndefinedUserError), users)
    ensures s.result.Ok? <==> c.validUpdate(patch) && id in users
    // only the target record changes, and only as the patch says
    ensures s.result.Ok? ==>
      && s.users.Keys == users.Keys
      && (forall k | k in users && k != id :: s.users[k] == users[k])
      && s.users[id] == s.result.value
      && Patched(users[id], patch, now, s.result.value)
    ensures Keyed(users) ==> Keyed(s.users)
    // the stamps stay ordered when the clock has not gone back and the patch
    // does not move `createdAt` past the clock
    ensures StampsOrdered(users) && ClockNotBehind(users, now) && StampFits(patch, now) ==>
      StampsOrdered(s.users)
    ensures ClockNotBehind(users, now) ==> ClockNotBehind(s.users, now)
    // a patch without a password leaves every stored password a hash output
    ensures patch.password.None? && PasswordsHashed(users, c.hash) ==> PasswordsHashed(s.users, c.hash)
  {
    if !c.validUpdate(patch) then
      Step(Err(ValidationError), users)
    else if id !in users then
      Step(Err(UndefinedUserError), users)
    else
      var user := Merge(users[id], patch, now);
      Step(Ok(user), users[id := user])
  }

  /** Delete by id: remove the record, and fail when nothing was deleted. */
  function DeleteUser(users: Store, id: Id): (s: Step<DeleteResult>)
    ensures id !in users ==> s == Step(Err(UndefinedUserError), users)
    ensures id in users ==>
      && s.result == Ok(DeleteResult(1))
      && s.users.Keys == users.Keys - {id}
      && (forall k | k in s.users :: s.users[k] == users[k])
    ensures UniqueEmails(users) ==> UniqueEmails(s.users)
    ensures Keyed(users) ==> Keyed(s.users)
    ensures StampsOrdered(users) ==> StampsOrdered(s.users)
  {
    var deletedCount := if id in users then 1 else 0;
    if deletedCount == 0 then Step(Err(UndefinedUserError), users)
    else Step(Ok(DeleteResult(deletedCount)), users - {id})
  }
}
