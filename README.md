# Auth microservice: registration and session store

A Dafny model of two pieces of the auth microservice:

- **User registration** (`AuthService.registerUser`). The request's password must match its
  confirmation, and its email must not belong to an existing user. Only then is the password
  hashed and a user record created. The users repository is modelled as an abstract store of
  created records keyed by email. The hasher is an opaque function given to the service when
  it is built. Every call the service makes to these collaborators (`getByEmail`, `hash`,
  `createUser`) is appended, with its argument, to a call log. The per-collaborator call counts
  that the unit tests check are counted from that log.
- **The Redis session repository** (`RedisSessionRepo`). It keeps two indexes in one Redis key
  space: `session:<jti>` holds one session record, and `user_session:<email>` holds the list of
  that owner's records. The model stores them as two maps, `byId` and `byOwner`. Each Redis
  command is given its meaning as a function (module `Redis`): `SET` overwrites, `LPUSH`
  prepends, `LRANGE 0 -1` reads the whole list, `DEL` drops the key, and `LREM key 0 v` removes
  every element equal to `v`. As in Redis, a list that becomes empty loses its key. A
  `MULTI`/`EXEC` batch is one assignment that updates both indexes at once.

Layout:
- `redis.dfy` (module `Redis`): the list commands over a key space of lists.
- `sessions_repo.dfy` (module `Sessions`): the session record, the key-space value, specification
  functions for the four repository operations, the invariant that the two indexes agree,
  lemmas about them, and the class `RedisSessionRepo` whose methods are proved against those
  functions.
- `auth_service.dfy` (module `Auth`): the registration request and outcome, the call log, the
  specification function `Register`, and the class `AuthService` whose `RegisterUser` is proved
  against it.

Points where the code's behaviour may be unexpected:
- A duplicate email fails with `InternalError`, not a separate conflict error.
- A password mismatch fails with `InvalidRequestError`.
- Saving the same record twice lists it twice in its owner's list (`LPUSH`), so saving is not
  idempotent (`Sessions.SaveTwiceListsTwice`).
- Removal takes out every equal entry from the owner's list, not just one; the entries left keep their order.

## Model

| member | source | states |
|---|---|---|
| `Redis.LRange` | auth-microservice/src/logic/auth/sessions-repo/sessions-repo.ts:29-33 | `LRANGE 0 -1` reads a missing key as the empty list; in a key space that keeps no empty list, the result is empty exactly when the key is absent |
| `Redis.LRangeDeterminesKeySpace` | auth-microservice/src/logic/auth/sessions-repo/sessions-repo.ts:28-35 | two key spaces without empty lists that read alike under `LRANGE` at every key are equal |
| `Redis.LPush` | auth-microservice/src/logic/auth/sessions-repo/sessions-repo.ts:24 | after `LPUSH`, the key's list is the value followed by the old list; every other key reads the same; no empty list is created |
| `Redis.RemoveAll` | auth-microservice/src/logic/auth/sessions-repo/sessions-repo.ts:50 | the list left by `LREM key 0 v` holds exactly the old elements different from `v`; as a multiset it is the old one with every copy of `v` dropped; its order is pinned down by `RemoveAllSingle` and `RemoveAllAppend` |
| `Redis.RemoveAllSingle` | auth-microservice/src/logic/auth/sessions-repo/sessions-repo.ts:50 | `LREM key 0 v` keeps a one-element list exactly when its element differs from `v` |
| `Redis.RemoveAllAppend` | auth-microservice/src/logic/auth/sessions-repo/sessions-repo.ts:50 | the survivors of `a + b` are the survivors of `a` followed by those of `b`: with the one-element case, `LREM` is an order-keeping filter |
| `Redis.RemoveAllAbsent` | auth-microservice/src/logic/auth/sessions-repo/sessions-repo.ts:50 | `LREM key 0 v` leaves a list that does not contain `v` unchanged |
| `Redis.LRem` | auth-microservice/src/logic/auth/sessions-repo/sessions-repo.ts:50 | after `LREM key 0 v`, the key reads as its old list with every `v` removed; every other key reads the same; an emptied list loses its key |
| `Sessions.Lookup` | auth-microservice/src/logic/auth/sessions-repo/sessions-repo.ts:40-45 | `getSession` fails only with the "Session is not found. Code: 41." error |
| `Sessions.Saved` | auth-microservice/src/logic/auth/sessions-repo/sessions-repo.ts:21-26 | after `saveSession(p)`, `getSession(p.jti)` returns `p` (overwriting any earlier record); `getSessions(p.email)` is `p` followed by the old list; every other id and every other owner read as before |
| `Sessions.Removed` | auth-microservice/src/logic/auth/sessions-repo/sessions-repo.ts:47-52 | after `removeSession(p)`, `getSession(p.jti)` fails; `p.email`'s list is the old list with every copy of `p` filtered out and the rest in their old order (so still newest first), and no longer holds `p`; every other id and every other owner read as before |
| `Sessions.StoredIffListed` | auth-microservice/src/logic/auth/sessions-repo/sessions-repo.ts:22-25 | when the indexes agree, a record is stored under its id exactly when its owner's list holds it |
| `Sessions.EmptyKeyspaceConsistent` | auth-microservice/src/logic/auth/sessions-repo/sessions-repo.ts:28-35 | an empty Redis has agreeing indexes, and `getSessions` returns the empty list for every email |
| `Sessions.SaveFreshPreservesConsistent` | auth-microservice/src/logic/auth/sessions-repo/sessions-repo.ts:21-26 | a save under an id that is not yet stored keeps the two indexes in agreement |
| `Sessions.RemovePreservesConsistent` | auth-microservice/src/logic/auth/sessions-repo/sessions-repo.ts:47-52 | removing the record stored under its id, or one whose id is not stored, keeps the indexes in agreement |
| `Sessions.SaveRemoveRoundTrip` | auth-microservice/src/logic/auth/sessions-repo/sessions-repo.ts:21-52 | for an id not yet stored, `saveSession(p)` followed by `removeSession(p)` gives back exactly the key space it started from |
| `Sessions.SaveTwiceListsTwice` | auth-microservice/src/logic/auth/sessions-repo/sessions-repo.ts:21-26 | saving the same record twice leaves one by-id entry but two copies at the head of the owner's list |
| `Sessions.NewestFirst` | auth-microservice/src/logic/auth/sessions-repo/sessions-repo.ts:24 | the owner's records among a run of saves, newest first: exactly the saved records with that email |
| `Sessions.SessionsAfterSaves` | auth-microservice/src/logic/auth/sessions-repo/sessions-repo.ts:21-35 | after any run of saves, `getSessions(email)` is that owner's saved records, most recent first, followed by what was listed before; nothing is dropped |
| `Sessions.RedisSessionRepo.constructor` | auth-microservice/src/logic/auth/sessions-repo/sessions-repo.ts:16-19 | a repository reads and writes whatever key space its Redis connection already holds |
| `Sessions.RedisSessionRepo.SaveSession` | auth-microservice/src/logic/auth/sessions-repo/sessions-repo.ts:21-26 | writes both indexes in one step, giving the key space `Saved` describes; a save under a fresh id keeps the indexes in agreement |
| `Sessions.RedisSessionRepo.GetSessions` | auth-microservice/src/logic/auth/sessions-repo/sessions-repo.ts:28-35 | returns the owner's whole list, as `OwnerSessions` reads it |
| `Sessions.RedisSessionRepo.GetSession` | auth-microservice/src/logic/auth/sessions-repo/sessions-repo.ts:40-45 | returns the stored record, or the not-found error, as `Lookup` reads it |
| `Sessions.RedisSessionRepo.RemoveSession` | auth-microservice/src/logic/auth/sessions-repo/sessions-repo.ts:47-52 | deletes from both indexes in one step, giving the key space `Removed` describes; removing the stored record keeps the indexes in agreement |
| `Auth.Count` | auth-microservice/src/logic/auth/auth-service/auth-service.spec.ts:28-30 | the number of logged calls to one collaborator operation; zero exactly when none of the calls went to it |
| `Auth.Register` | auth-microservice/src/logic/auth/auth-service/auth-service.ts:40-56 | a mismatch gives `InvalidRequestError` with no calls. A taken email gives `InternalError` after one lookup, with no hash and no create. Success happens exactly when the confirmation matches and the email is free, with one call each. Calls come in the order lookup, hash, create. The hash is of the plaintext and happens only when the email is free. The created record has the request's email, the hash as both password and confirmation, and no name fields. Failures leave the store unchanged; success adds exactly the one record under the request's email. Records stay keyed by their email |
| `Auth.SecondRegistrationFails` | auth-microservice/src/logic/auth/auth-service/auth-service.ts:46-48 | after one successful registration, a second one with the same email fails |
| `Auth.AuthService.constructor` | auth-microservice/src/logic/auth/auth-service/auth-service.ts:34-38 | the service is built from the hasher and the users repository's store, with an empty call log |
| `Auth.AuthService.RegisterUser` | auth-microservice/src/logic/auth/auth-service/auth-service.ts:40-56 | makes the collaborator calls step by step; its outcome, the new store and the calls it appends to the log are those that `Register` describes |

## Left out

- Login, token refresh, user-info lookup and ownership-checked session removal: the controller calls them (auth-microservice/src/logic/auth/auth.controller.ts), but `IAuthService` declares no such operation and `AuthService` implements none of them (auth-microservice/src/logic/auth/auth-service/auth-service.ts:30-57).
- The JWT helper and the hasher implementations are not part of this model. The hash is an opaque function, and the service's JWT dependency is unused by registration.
- `Promise`/`async` scheduling and concurrent requests. Two concurrent registrations with the same email, and the database's unique-email constraint that would settle them, are not modelled. `SecondRegistrationFails` covers only registrations made one after the other.
- The users repository's Sequelize calls and the table's column constraints. The store is an abstract map from email to the record passed to `createUser`. The created record carries no name fields, while the `users` table declares `firstname` and `lastname` NOT NULL (auth-microservice/src/databases/Sequelize/models/User.model.ts:23-33). Whether the database accepts that record is not modelled.
- JSON serialisation of session records: records are compared as values. Key-order effects of `JSON.stringify` on `LREM` matching are not modelled.
- Redis failures: an `EXEC` that fails, or a lost connection, is not modelled. Each batch applies both writes.
- Request validation (DTO decorators, the Joi token-payload schema) and all framework, connection and dependency-injection wiring.
