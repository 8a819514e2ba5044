/**
 * Sequences of service calls, one after another, each atomic. The invariants
 * the store keeps "at any time" are stated over such sequences: ids match
 * their keys across every call, and emails stay unique across any sequence
 * with no update in it.
 */
module UserTraces {
  import opened UserTypes
  import opened UserLifecycle

  /** One call to the service, with the clock reading and fresh id it is given. */
  datatype Request =
    | Create(data: UserData, newId: Id, now: Time)
    | GetById(id: Id)
    | GetAll
    | UpdateById(id: Id, patch: UserData, now: Time)
    | DeleteById(id: Id)

  /** The clock reading a call is handed; the readers take none. */
  predicate Stamps(req: Request) {
    req.Create? || req.UpdateById?
  }

  /**
   * The store after one call. The readers leave it as it was and delete only
   * drops records; every call keeps ids keyed, every call but update keeps
   * emails unique, every call but an update carrying a password keeps the
   * stored passwords hash outputs, and the stamps stay ordered and behind the clock as long
   * as the clock does not go back.
   */
  function Apply(users: Store, c: Collaborators, req: Request): (after: Store)
    requires req.Create? ==> req.newId !in users
    requires CreateSchemaNeedsCredentials(c.validCreate)
    ensures !Stamps(req) ==> after.Keys <= users.Keys && forall k | k in after :: after[k] == users[k]
    ensures req.GetById? || req.GetAll? ==> after == users
    ensures Keyed(users) ==> Keyed(after)
    ensures !req.UpdateById? && UniqueEmails(users) ==> UniqueEmails(after)
    ensures Stamps(req) && ClockNotBehind(users, req.now) ==> ClockNotBehind(after, req.now)
    ensures PasswordsHashed(users, c.hash) && (req.UpdateById? ==> req.patch.password.None?) ==>
      PasswordsHashed(after, c.hash)
    ensures StampsOrdered(users) && (req.UpdateById? ==> ClockNotBehind(users, req.now) && StampFits(req.patch, req.now)) ==>
      StampsOrdered(after)
  {
    match req
    case Create(data, newId, now) => CreateUser(users, c, data, newId, now).users
    case GetById(_) => users
    case GetAll => users
    case UpdateById(id, patch, now) => UpdateUser(users, c, id, patch, now).users
    case DeleteById(id) => DeleteUser(users, id).users
  }

  /** Every create in the sequence is handed an id the store does not hold at that point. */
  ghost predicate Admissible(users: Store, c: Collaborators, reqs: seq<Request>)
    decreases |reqs|
  {
    && CreateSchemaNeedsCredentials(c.validCreate)
    && (reqs != [] ==>
          && (reqs[0].Create? ==> reqs[0].newId !in users)
          && Admissible(Apply(users, c, reqs[0]), c, reqs[1..]))
  }

  /** The store after the whole sequence. */
  function Run(users: Store, c: Collaborators, reqs: seq<Request>): Store
    requires Admissible(users, c, reqs)
    decreases |reqs|
  {
    if reqs == [] then users else Run(Apply(users, c, reqs[0]), c, reqs[1..])
  }

  predicate NoUpdates(reqs: seq<Request>) {
    forall i | 0 <= i < |reqs| :: !reqs[i].UpdateById?
  }

  /** Create, get, list and delete calls, in any number and order, keep emails unique. */
  lemma {:induction false} RunWithoutUpdatesKeepsEmailsUnique(users: Store, c: Collaborators, reqs: seq<Request>)
    requires Admissible(users, c, reqs)
    requires UniqueEmails(users)
    requires NoUpdates(reqs)
    ensures UniqueEmails(Run(users, c, reqs))
    decreases |reqs|
  {
    if reqs != [] {
      assert !reqs[0].UpdateById?;
      assert NoUpdates(reqs[1..]) by {
        forall i | 0 <= i < |reqs[1..]| ensures !reqs[1..][i].UpdateById? {
          assert reqs[1..][i] == reqs[i + 1];
        }
      }
      RunWithoutUpdatesKeepsEmailsUnique(Apply(users, c, reqs[0]), c, reqs[1..]);
    }
  }

  /** Every call, updates included, keeps each record under its own id. */
  lemma {:induction false} RunKeepsKeyed(users: Store, c: Collaborators, reqs: seq<Request>)
    requires Admissible(users, c, reqs)
    requires Keyed(users)
    ensures Keyed(Run(users, c, reqs))
    decreases |reqs|
  {
    if reqs != [] {
      RunKeepsKeyed(Apply(users, c, reqs[0]), c, reqs[1..]);
    }
  }

  /** No update in the sequence carries a password. */
  predicate NoPasswordPatches(reqs: seq<Request>) {
    forall i | 0 <= i < |reqs| :: reqs[i].UpdateById? ==> reqs[i].patch.password.None?
  }

  /** A sequence of calls whose updates carry no password stores only hash outputs. */
  lemma {:induction false} RunKeepsPasswordsHashed(users: Store, c: Collaborators, reqs: seq<Request>)
    requires Admissible(users, c, reqs)
    requires PasswordsHashed(users, c.hash)
    requires NoPasswordPatches(reqs)
    ensures PasswordsHashed(Run(users, c, reqs), c.hash)
    decreases |reqs|
  {
    if reqs != [] {
      assert reqs[0].UpdateById? ==> reqs[0].patch.password.None?;
      assert NoPasswordPatches(reqs[1..]) by {
        forall i | 0 <= i < |reqs[1..]|
          ensures reqs[1..][i].UpdateById? ==> reqs[1..][i].patch.password.None?
        {
          assert reqs[1..][i] == reqs[i + 1];
        }
      }
      RunKeepsPasswordsHashed(Apply(users, c, reqs[0]), c, reqs[1..]);
    }
  }

  /** The clock reading in force after `req`, when `t` was in force before it. */
  function ClockAfter(req: Request, t: Time): Time {
    if Stamps(req) then req.now else t
  }

  /**
   * Starting from reading `t`, the clock never goes back, and no update moves a
   * record's `createdAt` past the reading it is handed.
   */
  ghost predicate ClockForward(t: Time, reqs: seq<Request>)
    decreases |reqs|
  {
    reqs != [] ==>
      && (Stamps(reqs[0]) ==> t <= reqs[0].now)
      && (reqs[0].UpdateById? ==> StampFits(reqs[0].patch, reqs[0].now))
      && ClockForward(ClockAfter(reqs[0], t), reqs[1..])
  }

  /** While the clock runs forward, no record is ever updated before it was created. */
  lemma {:induction false} RunKeepsStampsOrdered(users: Store, c: Collaborators, reqs: seq<Request>, t: Time)
    requires Admissible(users, c, reqs)
    requires StampsOrdered(users) && ClockNotBehind(users, t)
    requires ClockForward(t, reqs)
    ensures StampsOrdered(Run(users, c, reqs))
    decreases |reqs|
  {
    if reqs != [] {
      var req := reqs[0];
      var after := Apply(users, c, req);
      if Stamps(req) {
        assert ClockNotBehind(users, req.now);
      }
      assert ClockNotBehind(after, ClockAfter(req, t));
      RunKeepsStampsOrdered(after, c, reqs[1..], ClockAfter(req, t));
    }
  }
}
