/**
 * The data model of the user-lifecycle service: request bodies, stored user
 * records, the three failures the service raises, and the collaborators it
 * calls without owning them (the two validation schemas and the password
 * hashing primitive).
 */
module UserTypes {

  /** The identifier the document store assigns to a record. */
  type Id = string

  /** A clock reading; kept structured rather than as an ISO-8601 string. */
  type Time = nat

  datatype Option<T> = None | Some(value: T)

  /** The names of the fields a record has besides its free-form profile. */
  const RecordFields: set<string> := {"_id", "email", "password", "createdAt", "updatedAt"}

  /** Free-form profile fields; none of them is named after a record field. */
  type Profile = m: map<string, string> | m.Keys !! RecordFields witness map[]

  /**
   * A request body as it reaches the service: any field may be missing,
   * including the two timestamps a caller may send along.
   */
  datatype UserData = UserData(
    email: Option<string>,
    password: Option<string>,
    createdAt: Option<Time>,
    updatedAt: Option<Time>,
    profile: Profile)

  /** A persisted user record. */
  datatype User = User(
    id: Id,
    email: string,
    password: string,
    profile: Profile,
    createdAt: Time,
    updatedAt: Time)

  /** The service's failure taxonomy. */
  datatype ServiceError = ValidationError | UsedEmailError | UndefinedUserError

  datatype Result<T> = Ok(value: T) | Err(error: ServiceError)

  /** What the store reports after a delete by id. */
  datatype DeleteResult = DeleteResult(deletedCount: nat)

  /** The user collection, keyed by record id. */
  type Store = map<Id, User>

  /**
   * The collaborators whose internals are not part of the model: the creation
   * schema, the update schema, and the one-way password hash.
   */
  datatype Collaborators = Collaborators(
    validCreate: UserData -> bool,
    validUpdate: UserData -> bool,
    hash: string -> string)

  /** The creation schema accepts only bodies that carry an email and a password. */
  ghost predicate CreateSchemaNeedsCredentials(validCreate: UserData -> bool) {
    forall d :: validCreate(d) ==> d.email.Some? && d.password.Some?
  }

  /** Some stored record holds `email` (exact match, as the store compares). */
  predicate EmailInUse(users: Store, email: string) {
    exists k | k in users :: users[k].email == email
  }

  /** At most one record per distinct email. */
  ghost predicate UniqueEmails(users: Store) {
    forall a, b | a in users && b in users && users[a].email == users[b].email :: a == b
  }

  /** Every record carries the id it is stored under. */
  ghost predicate Keyed(users: Store) {
    forall k | k in users :: users[k].id == k
  }

  /** Every stored password is an output of the hash, never a raw secret. */
  ghost predicate PasswordsHashed(users: Store, hash: string -> string) {
    forall k | k in users :: exists p :: users[k].password == hash(p)
  }

  /** No record was updated before it was created. */
  ghost predicate StampsOrdered(users: Store) {
    forall k | k in users :: users[k].createdAt <= users[k].updatedAt
  }

  /** The clock reading `now` is not earlier than any record's last update. */
  ghost predicate ClockNotBehind(users: Store, now: Time) {
    forall k | k in users :: users[k].updatedAt <= now
  }
}
