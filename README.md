# User-lifecycle service, modelled in Dafny

This project models the user service of `apps/user/src/user.service.ts`. The
service keeps a collection of user records and has five operations: list
all, create, get by id, update by id and delete by id. It validates requests
against two schemas, refuses a second record with an email already in use,
hashes the password on create, stamps `createdAt`/`updatedAt`, and raises one
of three errors: `ValidationError`, `UsedEmailError` or `UndefinedUserError`.

Layout:

- `user_types.dfy` (module `UserTypes`): the records and the request bodies.
  It also holds the error taxonomy and the store, which is a `map` from id to
  record. The collaborators the service calls without owning them are
  function-valued fields of `Collaborators`: the creation schema, the update
  schema and the password hash. The store invariants are predicates here:
  unique emails, records keyed by their own id, `createdAt <= updatedAt`, and
  every stored password being an output of the hash.
- `user_lifecycle.dfy` (module `UserLifecycle`): each operation as a
  transition from the store before the call to the reply and the store after
  it. The contracts state the promised behaviour: the order in which errors
  are checked, that every error leaves the store unchanged, what a successful
  call adds or changes, and which invariants each call keeps.
- `user_service.dfy` (module `UserService`): class `Service`. Its field
  `users` is the collection. `Create`, `Update` and `DeleteById` change it
  step by step, as the source does. `GetAllUsers` and `GetById` only read it.
  Each method is proved equal to its transition. The method `Scenario` calls
  the class the way a client would: a create, a second create with the same
  email (`UsedEmailError`), a get of an unknown id (`UndefinedUserError`) and
  a delete of one id twice (success, then `UndefinedUserError`).
- `user_properties.dfy` (module `UserProperties`): properties about more than
  one call. These include the double delete, the second create with the same
  email, and what update does to email uniqueness.
- `user_traces.dfy` (module `UserTraces`): sequences of calls. The "at any
  time" invariants are proved over these sequences.

Update does not check emails. `updateUserByIDService` passes the patch
straight to the store (lines 67-71), so an update can give a record the email
of another record. The model therefore proves email uniqueness across create,
get, list and delete only (`RunWithoutUpdatesKeepsEmailsUnique`). For update
it proves the exact condition: uniqueness survives an update if and only if
the patch carries no email or an email no other record holds
(`UpdateKeepsEmailsUniqueIff`). `UpdateCanDuplicateEmail` gives a concrete
store and patch where uniqueness is lost. Update also stores a patched
password as given, without hashing it (`UpdateStoresPasswordAsGiven`).
Likewise, a patch that carries `createdAt` replaces the record's creation
stamp, so a record can end up created after its last update
(`UpdateCanUnorderStamps`). The model keeps these behaviours as the code has
them.

Request bodies carry `email`, `password`, `createdAt` and `updatedAt` as
fields of their own. All other fields form a free-form profile, whose keys
never name a record field. Create spreads the body and then overrides
`password`, `createdAt` and `updatedAt` (lines 36-41), so stamps sent with a
create body are dropped. Update spreads the patch and then overrides
`updatedAt` (line 69), so the patch's `updatedAt` is dropped while its
`createdAt` is kept.

## Model

| member | source | states |
|---|---|---|
| `UserLifecycle.AllUsers` | apps/user/src/user.service.ts:15-17 | Every stored record is listed, and only stored records are. In a keyed store the listing has exactly as many records as the store, so none are lost or merged. |
| `UserLifecycle.ValuesOfKeyedStore` | apps/user/src/user.service.ts:15-17 | In a store where each record carries its own id, no two ids hold the same record, so the set of records is as large as the store. |
| `UserLifecycle.CreateUser` | apps/user/src/user.service.ts:19-49 | A body that fails the creation schema gives `ValidationError` with the store unchanged, whether or not its email is in use. A used email gives `UsedEmailError` with the store unchanged. Success happens exactly when neither applies. Success adds one record under the fresh id and leaves every other record alone. The new record has the hashed password, the body's email and other fields, and `createdAt == updatedAt == now`. Unique emails, keyed ids and ordered stamps are kept, and so is every stored password being a hash output. |
| `UserLifecycle.GetUser` | apps/user/src/user.service.ts:51-58 | Succeeds exactly when the id is stored and returns that record unchanged. Otherwise it fails with `UndefinedUserError`. |
| `UserLifecycle.Merge` | apps/user/src/user.service.ts:67-71 | The merged record takes every field the patch carries, including an unhashed password, a `createdAt` as given and each profile field. It keeps every other field and its id. It gets `updatedAt == now` whatever the patch says. |
| `UserLifecycle.UpdateUser` | apps/user/src/user.service.ts:60-80 | An invalid patch gives `ValidationError` with the store unchanged, before any lookup. A valid patch for an absent id gives `UndefinedUserError` with the store unchanged. On success only the target record changes, exactly as the patch says. Keyed ids are kept. `createdAt <= updatedAt` is kept when the clock is not behind any stored record and the patch sets no `createdAt` past the clock. A clock that is not behind the store stays so. A patch without a password keeps every stored password a hash output. |
| `UserLifecycle.DeleteUser` | apps/user/src/user.service.ts:82-93 | For a stored id, removes exactly that record, keeps all others and reports `deletedCount` 1. For an absent id, fails with `UndefinedUserError` and leaves the store unchanged. Unique emails, keyed ids and ordered stamps are kept. |
| `UserProperties.DeleteTwice` | apps/user/src/user.service.ts:82-93 | Deleting the same id twice succeeds the first time and fails with `UndefinedUserError` the second time. |
| `UserProperties.AbsentIdFails` | apps/user/src/user.service.ts:51-93 | For an absent id, get, update with a valid patch, and delete all fail with `UndefinedUserError`, and none of them changes the store. |
| `UserProperties.UpdateKeepsEmailsUniqueIff` | apps/user/src/user.service.ts:60-80 | A successful update of a store with unique emails keeps them unique if and only if the patch has no email, or has one that no other record holds. |
| `UserProperties.UpdateCanDuplicateEmail` | apps/user/src/user.service.ts:67-71 | There is a store with unique emails and a valid patch whose update succeeds and leaves two records with one email. |
| `UserProperties.UpdateStoresPasswordAsGiven` | apps/user/src/user.service.ts:67-71 | A password in a patch is stored exactly as given, not hashed. |
| `UserProperties.UpdateCanUnorderStamps` | apps/user/src/user.service.ts:67-71 | There is a store with ordered stamps, a clock not behind it and a valid patch carrying `createdAt` whose update succeeds and leaves a record created after its last update. |
| `UserProperties.SecondCreateWithSameEmailFails` | apps/user/src/user.service.ts:28-44 | After a successful create, a second create whose body also passes the creation schema and carries the same email fails with `UsedEmailError` and changes nothing, whatever its own clock reading. |
| `UserTraces.Apply` | apps/user/src/user.service.ts:15-93 | One call in a sequence. Get by id and list all leave the store as it was, and delete only drops records. Every call keeps ids keyed. Every call but update keeps emails unique. Create and update keep the store not ahead of their clock reading when it was not ahead before. Stamps stay ordered, for an update only when the clock is not behind and the patch's `createdAt` fits. Every stored password stays a hash output, except after an update whose patch carries a password. |
| `UserTraces.RunWithoutUpdatesKeepsEmailsUnique` | apps/user/src/user.service.ts:28-32 | Any sequence of create, get, list and delete calls, with each create given a fresh id, keeps at most one record per email. |
| `UserTraces.RunKeepsKeyed` | apps/user/src/user.service.ts:15-93 | Any sequence of calls, updates included, keeps every record under its own id. |
| `UserTraces.RunKeepsPasswordsHashed` | apps/user/src/user.service.ts:34-41 | Any sequence of calls whose updates carry no password, starting from a store whose passwords are all hash outputs, ends with every stored password a hash output. |
| `UserTraces.RunKeepsStampsOrdered` | apps/user/src/user.service.ts:36-41 | Any sequence of calls keeps `createdAt <= updatedAt` for every record, provided the clock never goes back and no patch sets `createdAt` past its clock reading. |
| `UserProperties.UpdateNeverMovesUpdatedAtBack` | apps/user/src/user.service.ts:67-71 | When the clock is not behind the store, a successful update leaves the record's `updatedAt` no earlier than it was. |
| `UserService.Service.GetAllUsers` | apps/user/src/user.service.ts:15-17 | Returns the listing of the current collection: every stored record, as many as the store holds. Reads only. |
| `UserService.Service.Create` | apps/user/src/user.service.ts:19-49 | The reply and the new collection are those of `CreateUser`. Keyed ids are kept, and unique emails too. |
| `UserService.Service.GetById` | apps/user/src/user.service.ts:51-58 | The reply is that of `GetUser`, and a found record carries the requested id. Reads only. |
| `UserService.Service.Update` | apps/user/src/user.service.ts:60-80 | The reply and the new collection are those of `UpdateUser`. Keyed ids are kept. |
| `UserService.Service.DeleteById` | apps/user/src/user.service.ts:82-93 | The reply and the new collection are those of `DeleteUser`. Keyed ids are kept, and unique emails too. |

## Left out

- The document store's internals are not modelled: query semantics, casting a malformed id (which raises a store error, not `UndefinedUserError`), and the `save()` machinery. The store is a `map`.
- The store's id assignment is not modelled. Create takes a fresh id that the store must not already hold.
- The schemas `userSchemaValidation` and `userUpdateSchemaValidation` are not part of this model. They are the opaque predicates `validCreate` and `validUpdate`. The only assumption made is that the creation schema demands an email and a password.
- `hashPassword` is not part of this model. It is the uninterpreted function `hash`. Salting makes the real hash non-deterministic, which a function cannot express. That the stored hash differs from the plaintext cannot be stated about an uninterpreted function.
- Logging is left out. It is I/O with no functional contract.
- `async`/`await` and concurrency are left out. Each call is atomic and calls run one after another, so the race between the email lookup and the insert is not modelled.
- The clock is a `now` parameter, and timestamps are numbers, not ISO-8601 strings.
- `UserLifecycle.CreateUser`: the source reads the clock twice, once for `createdAt` and once for `updatedAt`. The model uses a single reading, so the two stamps are always equal. In the source they can differ by a clock tick.
- `UserLifecycle.AllUsers`: the store's iteration order is not modelled. The listing is a set.
- A create body or patch that carries `_id` is not modelled. The store would take it as the new record's id, or refuse to change the id. Profile keys never name a record field (`_id`, `email`, `password`, `createdAt`, `updatedAt`); those are either fields of the body or not representable.
- Which profile fields the store's schema keeps is not modelled. The store may drop fields its schema does not declare; the model keeps them all.
- A unique index on `email` in the store is not modelled; the store's schema file is not part of this model. With such an index, an update that duplicates an email would fail with a store error instead of succeeding, and so would a create that loses the race between lookup and insert. The model's map has no such constraint.
- `UserTraces.RunKeepsPasswordsHashed`: excludes updates that carry a password, because update stores a patched password as given (`UserProperties.UpdateStoresPasswordAsGiven`).
- `UserTraces.RunWithoutUpdatesKeepsEmailsUnique`: excludes updates, because update performs no email check. `UserProperties.UpdateKeepsEmailsUniqueIff` gives the exact condition for one update.
