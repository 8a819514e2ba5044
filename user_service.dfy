/**
 * The service as callers see it: one object holding the user collection,
 * whose five operations read or replace that collection step by step.
 * Each operation is proved against its transition in UserLifecycle.
 */
module UserService {
  import opened UserTypes
  import opened UserLifecycle

  class Service {
    /** The user collection, keyed by record id. */
    var users: Store
    /** The validation schemas and the password hash the service calls. */
    const collaborators: Collaborators

    ghost predicate Valid()
      reads this
    {
      && Keyed(users)
      && CreateSchemaNeedsCredentials(collaborators.validCreate)
    }

    constructor (collaborators: Collaborators)
      requires CreateSchemaNeedsCredentials(collaborators.validCreate)
      ensures Valid()
      ensures users == map[] && this.collaborators == collaborators
    {
      this.collaborators := collaborators;
      users := map[];
    }

    /** List all: every stored record, read only. */
    method GetAllUsers() returns (all: set<User>)
      requires Valid()
      ensures all == AllUsers(users)
      ensures |all| == |users|
      ensures forall k | k in users :: users[k] in all
    {
      all := AllUsers(users);
    }

    /** Create: validate, check the email, hash, stamp, insert. */
    method Create(data: UserData, newId: Id, now: Time) returns (r: Result<User>)
      requires Valid()
      requires newId !in users
      modifies this
      ensures Valid()
      ensures Step(r, users) == CreateUser(old(users), collaborators, data, newId, now)
      ensures old(UniqueEmails(users)) ==> UniqueEmails(users)
    {
      if !collaborators.validCreate(data) {
        return Err(ValidationError);
      }
      if EmailInUse(users, data.email.value) {
        return Err(UsedEmailError);
      }
      var hashed := collaborators.hash(data.password.value);
      var user := User(newId, data.email.value, hashed, data.profile, now, now);
      users := users[newId := user];
      r := Ok(user);
    }

    /** Get by id, read only. */
    method GetById(id: Id) returns (r: Result<User>)
      requires Valid()
      ensures r == GetUser(users, id)
      ensures r.Ok? ==> r.value.id == id
    {
      if id !in users {
        return Err(UndefinedUserError);
      }
      r := Ok(users[id]);
    }

    /** Update by id: validate the patch, then find, merge and restamp in one store call. */
    method Update(id: Id, patch: UserData, now: Time) returns (r: Result<User>)
      requires Valid()
      modifies this
      ensures Valid()
      ensures Step(r, users) == UpdateUser(old(users), collaborators, id, patch, now)
    {
      if !collaborators.validUpdate(patch) {
        return Err(ValidationError);
      }
      var found := id in users;
      if !found {
        return Err(UndefinedUserError);
      }
      var user := Merge(users[id], patch, now);
      users := users[id := user];
      r := Ok(user);
    }

    /** Delete by id: remove, then fail when the deleted count is zero. */
    method DeleteById(id: Id) returns (r: Result<DeleteResult>)
      requires Valid()
      modifies this
      ensures Valid()
      ensures Step(r, users) == DeleteUser(old(users), id)
      ensures old(UniqueEmails(users)) ==> UniqueEmails(users)
    {
      var deletedCount := if id in users then 1 else 0;
      users := users - {id};
      if deletedCount == 0 {
        return Err(UndefinedUserError);
      }
      r := Ok(DeleteResult(deletedCount));
    }
  }

  /** Two creates with one email, then a double delete, seen from a caller. */
  method Scenario(c: Collaborators)
    requires CreateSchemaNeedsCredentials(c.validCreate)
    requires c.validCreate(UserData(Some("a@x.com"), Some("secret123"), None, None, map[]))
    requires c.validCreate(UserData(Some("a@x.com"), Some("other"), None, None, map[]))
  {
    var service := new Service(c);
    var first := service.Create(UserData(Some("a@x.com"), Some("secret123"), None, None, map[]), "u1", 10);
    assert first.Ok? && first.value.createdAt == first.value.updatedAt;
    assert first.value.password == c.hash("secret123");
    var second := service.Create(UserData(Some("a@x.com"), Some("other"), None, None, map[]), "u2", 11);
    assert service.users["u1"].email == "a@x.com";
    assert second == Err(UsedEmailError);
    var missing := service.GetById("nonexistent-id");
    assert missing == Err(UndefinedUserError);
    var deleted := service.DeleteById("u1");
    assert deleted == Ok(DeleteResult(1));
    var again := service.DeleteById("u1");
    assert again == Err(UndefinedUserError);
  }
}
