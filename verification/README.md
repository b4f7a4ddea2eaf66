# User-profile store: a Dafny model

This project models the core of a user-profile microservice. Two entry points write to one profile store:

- **HTTP API.** `UserController` calls `UserService`. The handlers read the caller's profile (`/me`), save a profile, and update a profile by external id.
- **Event ingestor.** `UserEventConsumerService` reads "user created" events and creates a profile when none exists yet.

The model is functional. A `Profile` is an immutable datatype with `Option<string>` fields, where `None` is Java's `null`. The store is a value. Every operation that writes takes a store and returns the store it leaves behind, together with its result or failure.

Modules follow the source files:

| module | file | models |
|---|---|---|
| `Wrappers` | wrappers.dfy | `Option`, `Result` |
| `Profiles` | profiles.dfy | `UserProfile`: fields, both constructors, getters/setters, the in-place edit done by update |
| `ProfileStore` | store.dfy | `UserRepository`: `findByUserId` and `save` |
| `UserService` | service.dfy | `UserService` |
| `EventConsumer` | consumer.dfy | `UserEventConsumerService.consumeUserEvent` and a stream of deliveries |
| `UserController` | controller.dfy | `UserController`'s three handlers and their HTTP statuses |

## Modelling decisions

- **The store is an append-only table** (`Store(rows: seq<Profile>)`). No operation deletes a profile. Row `i` holds the profile whose generated id is `i`; this invariant is `Valid`. The next fresh id is the table length.
- **`findByUserId` is a single-result query.** It returns:
  - an empty optional when no row has the external id;
  - the profile when exactly one row has it;
  - the failure `NonUniqueResult` when two or more rows have it. Spring Data raises this as an incorrect-result-size exception, which becomes HTTP 500.

  A `null` external id matches rows whose external id is `null`.
- **`save(p)` overwrites when `p.id` names a stored row.** The saved profile keeps that id. Otherwise, when the id is `null` or unknown, the profile is added with the next fresh id.
- **Uniqueness of the external id is an explicit invariant (`UniqueUserIds`), not a property of the store.** It is proved to be kept by:
  - find-or-create (`GetOrCreatePreservesUnique`);
  - the event ingestor (`ConsumePreservesUnique`, `ConsumeAllPreservesUnique`);
  - update (`UpdatePreservesUnique`).

  The unconditional save and the controller's save do not keep it (see Findings).
- **Queries return no store.** `GetCurrentUserProfile`, `GetUserById` and `GetUserProfile` take a store and return only a result, so they cannot change the store.
- **The controller receives the token subject as an already-validated string.**

Two behaviours of the controller's save look unintended:

- It passes the client's `id` through, so a body naming another user's row replaces that user's profile.
- When the subject already has a profile, a save without a stored `id` adds a second row for the subject, after which `GET /me` fails.

Both are modelled as the code does them and listed under Findings, next to a corrected save.

## Model

| member | source | states |
|---|---|---|
| `Profiles.Extensionality` | src/main/java/com/contentnexus/user/management/service/model/UserProfile.java:13-27 | a profile is fully determined by its id, its preferences and its seven String fields |
| `Profiles.Default` | src/main/java/com/contentnexus/user/management/service/model/UserProfile.java:27-30 | the default constructor gives no id, null for every String field and an empty preferences map |
| `Profiles.Construct` | src/main/java/com/contentnexus/user/management/service/model/UserProfile.java:33-44 | the nine-argument constructor puts each argument in the field of the same name, as the getters then report |
| `Profiles.Set` | src/main/java/com/contentnexus/user/management/service/model/UserProfile.java:56-110 | after a String setter, that field's getter returns the value set, and every other getter, the id and the preferences are unchanged |
| `Profiles.SetId` | src/main/java/com/contentnexus/user/management/service/model/UserProfile.java:48-54 | `setId` changes the id and nothing else |
| `Profiles.SetPreferences` | src/main/java/com/contentnexus/user/management/service/model/UserProfile.java:112-118 | `setPreferences` makes the given map the preferences as it is (a replacement, not a merge) and changes nothing else |
| `Profiles.SetLastWins` | src/main/java/com/contentnexus/user/management/service/model/UserProfile.java:60-110 | setting a field twice leaves only the second value |
| `Profiles.SetCommutes` | src/main/java/com/contentnexus/user/management/service/model/UserProfile.java:60-110 | setters of different fields can be applied in either order |
| `Profiles.SetToOwnValue` | src/main/java/com/contentnexus/user/management/service/model/UserProfile.java:56-110 | setting a field to what its getter returns leaves the profile unchanged |
| `Profiles.ApplyUpdate` | src/main/java/com/contentnexus/user/management/service/service/UserService.java:65-72 | the edit update applies: email, phone, first/last name, username and role become the payload's (nulls included), preferences become the payload's map, and id and userId stay |
| `Profiles.OverwrittenByDetermines` | src/main/java/com/contentnexus/user/management/service/service/UserService.java:65-72 | only one profile can be the result of overwriting a stored profile with a payload |
| `Profiles.ApplyUpdateIdempotent` | src/main/java/com/contentnexus/user/management/service/service/UserService.java:65-72 | applying the same payload twice gives the same profile as applying it once |
| `ProfileStore.FirstFrom` | src/main/java/com/contentnexus/user/management/service/repository/UserRepository.java:10 | the scan finds the first row at or after a position that has the external id, or proves that none has it |
| `ProfileStore.Locate` | src/main/java/com/contentnexus/user/management/service/repository/UserRepository.java:10 | the lookup is empty exactly when no row has the external id, fails exactly when two rows have it, and otherwise names the only such row |
| `ProfileStore.FindByUserId` | src/main/java/com/contentnexus/user/management/service/repository/UserRepository.java:10 | `findByUserId` gives an empty optional exactly when the external id is absent, fails with NonUniqueResult exactly when it is ambiguous, and otherwise returns that only row's profile |
| `ProfileStore.LookupCases` | src/main/java/com/contentnexus/user/management/service/repository/UserRepository.java:10 | each external id is absent, ambiguous, or held by exactly one row |
| `ProfileStore.UniqueNeverAmbiguous` | src/main/java/com/contentnexus/user/management/service/repository/UserRepository.java:10 | when external ids are unique, no lookup fails |
| `ProfileStore.Save` | src/main/java/com/contentnexus/user/management/service/repository/UserRepository.java:9 | save keeps the id/row correspondence and returns the given profile, changed at most in its id, which can then be read at that id. A stored id is kept and the row count stays the same. Any other id is replaced by the next fresh id and the table grows by one. No other row changes. |
| `ProfileStore.SaveNewAppends` | src/main/java/com/contentnexus/user/management/service/repository/UserRepository.java:9 | saving a profile whose id names no row adds exactly that saved profile at the end and keeps every earlier row |
| `ProfileStore.ExtendsKeepsPresent` | src/main/java/com/contentnexus/user/management/service/repository/UserRepository.java:10 | a store that keeps all earlier rows still finds every external id it found before |
| `ProfileStore.AppendAbsentKeepsUnique` | src/main/java/com/contentnexus/user/management/service/repository/UserRepository.java:9-10 | adding a profile whose external id was absent keeps the external ids unique |
| `ProfileStore.OverwriteKeepsUnique` | src/main/java/com/contentnexus/user/management/service/repository/UserRepository.java:9-10 | rewriting one row without changing its external id keeps the external ids unique |
| `UserService.NewUser` | src/main/java/com/contentnexus/user/management/service/service/UserService.java:30-36 | the profile find-or-create builds has no id, the six given fields, phone unset and empty preferences |
| `UserService.GetOrCreateUserProfile` | src/main/java/com/contentnexus/user/management/service/service/UserService.java:23-42 | a stored external id returns that stored profile and leaves the store unchanged. An absent one adds exactly one profile with the next id, the given fields, phone unset and empty preferences, and returns it. An ambiguous one fails with no write. |
| `UserService.GetCurrentUserProfile` | src/main/java/com/contentnexus/user/management/service/service/UserService.java:44-51 | returns the stored profile when present and NotFound when absent; it cannot write |
| `UserService.GetUserById` | src/main/java/com/contentnexus/user/management/service/service/UserService.java:53-56 | returns the stored profile when present and an empty optional (not an error) when absent; it cannot write |
| `UserService.SaveUser` | src/main/java/com/contentnexus/user/management/service/service/UserService.java:58-61 | saves without any check. An id naming a row: that row now holds the profile as given. Any other id: the profile is added as one new row under the next id. No other row changes. |
| `UserService.UpdateUser` | src/main/java/com/contentnexus/user/management/service/service/UserService.java:63-77 | an absent external id gives NotFound and no write. A present one has only its own row rewritten: six fields and the preferences map come from the payload, and id and userId are kept. The updated row is returned. |
| `UserService.GetOrCreateTwice` | src/main/java/com/contentnexus/user/management/service/service/UserService.java:23-42 | a second find-or-create for the same external id, with any other arguments, gives the same result and store as the first; on success the store then holds exactly one profile for that id |
| `UserService.GetOrCreateTwiceAbsent` | src/main/java/com/contentnexus/user/management/service/service/UserService.java:27-41 | after creating the profile of an absent external id, that new row is its only row, and a second call returns it without writing |
| `UserService.GetOrCreateTwicePresent` | src/main/java/com/contentnexus/user/management/service/service/UserService.java:27 | for a stored external id, neither call writes, and both return the same outcome |
| `UserService.CreatedIsOnlyMatch` | src/main/java/com/contentnexus/user/management/service/service/UserService.java:28-40 | a profile added for an absent external id is the only row with that id |
| `UserService.GetOrCreatePreservesUnique` | src/main/java/com/contentnexus/user/management/service/service/UserService.java:23-42 | find-or-create keeps the external ids unique |
| `UserService.UpdatePreservesUnique` | src/main/java/com/contentnexus/user/management/service/service/UserService.java:63-77 | update keeps the external ids unique |
| `UserService.UpdateThenGet` | src/main/java/com/contentnexus/user/management/service/service/UserService.java:63-77 | with unique external ids, reading a profile back after a successful update returns exactly the updated profile |
| `UserService.UpdateReplacesPreferences` | src/main/java/com/contentnexus/user/management/service/service/UserService.java:72 | preferences {a:1,b:2} updated with payload preferences {c:3} become exactly {c:3}, in the result and in the store |
| `EventConsumer.ProfileOf` | src/main/java/com/contentnexus/user/management/service/cosumer/UserEventConsumerService.java:31-37 | the profile built from an event has no id, the event's six fields, phone unset and empty preferences |
| `EventConsumer.SameProfileAsGetOrCreate` | src/main/java/com/contentnexus/user/management/service/cosumer/UserEventConsumerService.java:31-37 | the ingestor and find-or-create build the same profile from the same fields, although they call the setters in a different order |
| `EventConsumer.ConsumeUserEvent` | src/main/java/com/contentnexus/user/management/service/cosumer/UserEventConsumerService.java:21-41 | when the external id exists, the store is unchanged whatever the event's other fields say. Otherwise exactly one profile is added, built from the event, with phone unset and empty preferences. No earlier row ever changes. |
| `EventConsumer.ReplayIsNoOp` | src/main/java/com/contentnexus/user/management/service/cosumer/UserEventConsumerService.java:25-28 | after one event is consumed, any event for the same external id (a replay, or one with different fields) leaves the store unchanged |
| `EventConsumer.ConsumeIdempotent` | src/main/java/com/contentnexus/user/management/service/cosumer/UserEventConsumerService.java:25-39 | delivering an event twice gives the same store as delivering it once |
| `EventConsumer.ConsumePreservesUnique` | src/main/java/com/contentnexus/user/management/service/cosumer/UserEventConsumerService.java:25-39 | the ingestor keeps the external ids unique |
| `EventConsumer.ConsumeMakesPresent` | src/main/java/com/contentnexus/user/management/service/cosumer/UserEventConsumerService.java:25-39 | after an event is consumed, its external id has a profile |
| `EventConsumer.ConsumeAll` | src/main/java/com/contentnexus/user/management/service/cosumer/UserEventConsumerService.java:20-41 | consuming a stream of events keeps every earlier row, and afterwards every event's external id has a profile |
| `EventConsumer.KnownEventsAreNoOps` | src/main/java/com/contentnexus/user/management/service/cosumer/UserEventConsumerService.java:25-28 | a stream whose every external id already has a profile leaves the store unchanged |
| `EventConsumer.RedeliveredStreamIsNoOp` | src/main/java/com/contentnexus/user/management/service/cosumer/UserEventConsumerService.java:20-41 | delivering an already-consumed stream again changes nothing |
| `EventConsumer.ConsumeAllPreservesUnique` | src/main/java/com/contentnexus/user/management/service/cosumer/UserEventConsumerService.java:25-39 | consuming a stream keeps the external ids unique |
| `EventConsumer.AliceScenario` | src/main/java/com/contentnexus/user/management/service/cosumer/UserEventConsumerService.java:31-39 | the event {u1, alice, a@x.com, Alice, A, member} consumed into an empty store is then found under "u1" with those fields, phone unset and empty preferences |
| `UserController.StatusCode` | src/main/java/com/contentnexus/user/management/service/controller/UserController.java:44-50 | 200 exactly for success, 403 exactly for Forbidden, 404 exactly for NotFound, 500 exactly for a non-unique lookup |
| `UserController.GetUserProfile` | src/main/java/com/contentnexus/user/management/service/controller/UserController.java:22-31 | `/me` looks up the token subject: its profile when present, the service's NotFound when absent; the handler's own null branch cannot be reached |
| `UserController.SaveUser` | src/main/java/com/contentnexus/user/management/service/controller/UserController.java:33-38 | the saved profile has the token subject as userId and every other field, including the client's id, as sent. An id naming a row replaces exactly that row; otherwise one row is added. No other row changes. |
| `UserController.UpdateUser` | src/main/java/com/contentnexus/user/management/service/controller/UserController.java:40-51 | a path id that is not the subject gives 403 and leaves the store unchanged. An equal path id is exactly the service update, including its NotFound. |
| `UserController.ForbiddenExactlyOnMismatch` | src/main/java/com/contentnexus/user/management/service/controller/UserController.java:44-47 | PUT answers 403 exactly when the path id differs from the token subject; the service never answers Forbidden |
| `UserController.UpdateAbsentIsNotFound` | src/main/java/com/contentnexus/user/management/service/controller/UserController.java:49-50 | PUT by the owner of an absent profile answers 404 and does not write |
| `UserController.SaveThenGetProfile` | src/main/java/com/contentnexus/user/management/service/controller/UserController.java:33-37 | after a save by subject S into a store with no profile for S, `/me` for S returns the saved profile, whose userId is S |
| `UserController.SaveUserOverwritesAnotherUser` | src/main/java/com/contentnexus/user/management/service/controller/UserController.java:34-37 | as written, alice saving a body with bob's row id replaces bob's profile, leaving none for bob |
| `UserController.SaveUserDuplicatesSubject` | src/main/java/com/contentnexus/user/management/service/controller/UserController.java:34-37 | as written, a save without a stored id by a subject that already has a profile creates a second row for that subject, and `/me` then answers 500 |
| `UserController.SaveUserCorrected` | src/main/java/com/contentnexus/user/management/service/controller/UserController.java:34-37 | corrected save: stamps the subject and ignores the client id. A subject with one row has that row replaced in place, keeping its id. An absent subject gets one new row under the next id. It succeeds unless the subject is ambiguous, in which case it fails without writing. Rows of other external ids never change. The result has the body's fields. |
| `UserController.SaveUserCorrectedThenGetProfile` | src/main/java/com/contentnexus/user/management/service/controller/UserController.java:34-37 | with unique external ids, the corrected save succeeds and keeps them unique, and `/me` then returns exactly the saved profile |

## Findings

| source | as written | input that shows it | evidently intended | confidence | as-written member | corrected member |
|---|---|---|---|---|---|---|
| src/main/java/com/contentnexus/user/management/service/controller/UserController.java:34-37 | only `userId` is stamped; the client's `id` goes to `save`, which overwrites the row with that id | bob's profile is row 0; alice POSTs `/save` with body `{id: 0}`; bob's profile is replaced by alice's | a server-assigned `id` ignored on writes, so a caller can only write their own profile | medium, not executed | `UserController.SaveUserOverwritesAnotherUser` | `UserController.SaveUserCorrected` |
| src/main/java/com/contentnexus/user/management/service/controller/UserController.java:34-37 | a save for a subject that already has a profile (for example one the event ingestor created) and no stored `id` adds a second row for that subject | event for "u1" consumed, then "u1" POSTs `/save` with no `id`; `findByUserId("u1")` now matches two rows, so `/me` and PUT fail | the save updates the subject's existing profile, so `/me` afterwards returns the saved profile | medium, not executed | `UserController.SaveUserDuplicatesSubject` | `UserController.SaveUserCorrectedThenGetProfile` |

## Left out

- Token validation and the security filter chain (`SecurityConfig.java`). The subject is an input string that has already been trusted. A token without a `sub` claim is not modelled: in the update handler it would cause a null-pointer failure.
- Kafka listener wiring, consumer groups, offsets and redelivery policy. `ConsumeAll` stands in for a sequence of deliveries. A failed delivery leaves the store unchanged, and what the broker does next is not modelled.
- JPA internals: how ids are generated, the `String`/`Long` id type mismatch in the repository declaration, 64-bit overflow of ids, and the two tables the entity is split into. The store is an abstract append-only table.
- `ProfileStore.Save`: when a profile carries an id that names no row, the model assigns a fresh id. The persistence provider's own behaviour for such an id depends on its version and is not modelled.
- Storage-unavailable failures of the store. Every store operation here succeeds or fails only as described.
- The check-then-act race between the existence check and the save in find-or-create and in the ingestor. The model is sequential. Under concurrency both paths can create duplicate rows, and this gap is not proved or excluded here.
- A `null` preferences map, and null keys or values inside it. Preferences are a plain `map<string, string>`.
- Logging, `toString`, JSON serialisation and the exact text of the 404 messages.
