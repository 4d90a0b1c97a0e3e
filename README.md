# Mood board: the mood store, modelled in Dafny

The mood board keeps one current mood per user. A `Mood` record is the pair
`(user, mood)`, stored in the keyspace "moods" under its `user` field. The
repository is a `CrudRepository<Mood, String>`; with the in-memory map
backend it behaves as a mutable finite map from user to record, with
`findById` (an optional result) and `save` (insert or replace, then return
the record). The service offers `getMood`, which fails with the configured
"mood not set" message when the user has no record, and `setMood`, which
builds a fresh record and saves it with no existence check and no validation
of the mood text.

Files:

- `optional.dfy` (module `Optional`): the optional value `findById` returns.
- `mood.dfy` (module `MoodRecord`): the record, its key, and the generated builder.
- `mood_repository.dfy` (module `MoodStore`): the store as a map value
  (`Find`, `Put`, the invariant `Keyed`, and `Replay` of a history of saves
  with the reference `LastSaved`), and the class `MoodRepository` whose field
  `moods` its methods read and reassign.
- `mood_service.dfy` (module `Service`): the failure `MoodNotSet`, the
  outcome `GetOutcome = Found(mood) | NotSet(error)` in place of the thrown
  exception, the specification functions `Read` and `Write`, the class
  `MoodService` holding the repository and the message, and two client
  methods that drive the class. `SetThenGetScenario` reads the mood of
  `stehrn` before and after one write of "happy", as
  `src/test/java/com/github/stehrn/mood/MoodRepositoryTest.java:17-27` does
  against the repository; its write-then-read half is
  `src/test/java/com/github/stehrn/mood/HttpRequestTest.java:37-46` over HTTP.
  `IndependentUsersScenario` writes two users independently,
  then rewrites one of them to the empty mood and reads both back.

`GetMood` has no `modifies` clause, so Dafny itself guarantees it leaves the
store unchanged; likewise `FindById`.

Neither `MoodService` nor the repository checks the user identifier, so the
model accepts any string as a user, the empty one included.

## Model

| member | source | states |
|---|---|---|
| MoodRecord.ConstructorKeepsFields | src/main/java/com/github/stehrn/mood/Mood.java:10-17 | the all-arguments constructor stores `user` and `mood` verbatim, and the record's key is its `user` |
| MoodRecord.BuilderMatchesConstructor | src/main/java/com/github/stehrn/mood/Mood.java:10-12 | `builder().user(u).mood(m).build()` equals `new Mood(u, m)`, in either setter order, and a later setter call replaces an earlier one |
| MoodRecord.EqualityIsFieldWise | src/main/java/com/github/stehrn/mood/Mood.java:11-17 | two records are equal exactly when both `user` and `mood` are equal |
| MoodStore.Find | src/main/java/com/github/stehrn/mood/MoodRepository.java:7 | `findById`: the record stored under the user, or absent; on a keyed store a record found is that user's own |
| MoodStore.Put | src/main/java/com/github/stehrn/mood/MoodRepository.java:7 | `save`: inserts or replaces the entry under the record's `user`; the stored users become the old ones plus that user, and the store invariant is kept |
| MoodStore.Replay | src/main/java/com/github/stehrn/mood/MoodRepository.java:7 | replaying saves keeps every entry under its own record's key, and the stored users become the old ones plus exactly the users saved (no user ever returns to unset) |
| MoodStore.ReplayFind | src/main/java/com/github/stehrn/mood/MoodRepository.java:7 | last write wins over any history: after a sequence of saves, `findById(u)` is the last record saved for `u`, or the earlier entry if none was saved for `u` |
| MoodStore.FindAfterSaves | src/test/java/com/github/stehrn/mood/MoodRepositoryTest.java:19-26 | on a fresh repository, `findById(u)` after any saves is the last record saved for `u`, and is absent exactly when `u` was never saved |
| MoodStore.FindAfterSave | src/test/java/com/github/stehrn/mood/MoodRepositoryTest.java:21-26 | after `save(m)`, `findById(m.user)` is present and equal to `m` |
| MoodStore.SaveLeavesOtherKeys | src/main/java/com/github/stehrn/mood/MoodRepository.java:7 | `save(m)` leaves the lookup of every user other than `m.user` as it was |
| MoodStore.SaveKeepsKeyed | src/main/java/com/github/stehrn/mood/Mood.java:15-16 | saving keeps the invariant that each record is stored under its `@Id` field `user` |
| MoodStore.SaveLastWriteWins | src/main/java/com/github/stehrn/mood/MoodRepository.java:7 | a second save under the same key replaces the first outright, with no version check |
| MoodStore.SaveNoOpIff | src/main/java/com/github/stehrn/mood/MoodRepository.java:7 | a save leaves the store unchanged exactly when the record is already stored, so saving the same record twice equals saving it once |
| MoodStore.MoodRepository.constructor | src/main/java/com/github/stehrn/mood/MoodRepository.java:6-7 | a fresh repository is empty and satisfies the store invariant |
| MoodStore.MoodRepository.FindById | src/main/java/com/github/stehrn/mood/MoodRepository.java:7 | returns the entry for the user if present and absent otherwise, the record found is that user's own, and nothing changes |
| MoodStore.MoodRepository.Save | src/main/java/com/github/stehrn/mood/MoodRepository.java:7 | the new store is the old one with the entry under `m.user` replaced by `m`, the invariant is kept, and `m` itself is returned |
| Service.Read | src/main/java/com/github/stehrn/mood/MoodService.java:22-28 | `getMood`: the stored record when present, otherwise `NotSet` carrying the configured message; on a keyed store a record found is the user's own |
| Service.Write | src/main/java/com/github/stehrn/mood/MoodService.java:30-32 | `setMood`: saves the record built by `builder().user(u).mood(m).build()` with no check; the stored users become the old ones plus `u`, and the store invariant is kept |
| Service.ReadOutcome | src/main/java/com/github/stehrn/mood/MoodService.java:22-28 | `getMood(u)` fails with exactly the configured message if and only if there is no record for `u`; otherwise it returns the stored record unchanged, which on a keyed store belongs to `u` |
| Service.ReadAfterWrite | src/main/java/com/github/stehrn/mood/MoodService.java:30-32 | `setMood(u, m)` stores `{u, m}` verbatim for every `m`, the empty string included, and a following `getMood(u)` returns `{u, m}` |
| Service.WriteLeavesOtherUsers | src/main/java/com/github/stehrn/mood/MoodService.java:30-32 | `setMood(u, m)` does not change the outcome of `getMood` for any other user |
| Service.WriteLastWins | src/main/java/com/github/stehrn/mood/MoodService.java:30-32 | with no existence check, `setMood(u, m2)` after `setMood(u, m1)` leaves the same store as `setMood(u, m2)` alone, and repeating a call changes nothing |
| Service.WriteIsReplay | src/main/java/com/github/stehrn/mood/MoodService.java:30-32 | one `setMood(u, m)` call is the one-save history `[{u, m}]`, and a call after a history extends that history by `{u, m}`, so any sequence of `setMood` calls is a replay of the records they built |
| Service.ReadAfterHistory | src/main/java/com/github/stehrn/mood/MoodService.java:22-32 | after any history of `setMood` calls on a fresh store, `getMood(u)` is "not set" exactly when `u` was never written, and otherwise the last record written for `u` |
| Service.MoodService.constructor | src/main/java/com/github/stehrn/mood/MoodService.java:13-20 | the service holds the injected repository and the configured not-found message |
| Service.MoodService.GetMood | src/main/java/com/github/stehrn/mood/MoodService.java:22-28 | returns `NotSet` with the configured message exactly when the repository has no record for the user, and otherwise that user's record; the store is unchanged |
| Service.MoodService.SetMood | src/main/java/com/github/stehrn/mood/MoodService.java:30-33 | the repository's new contents are the old ones with `{user, mood}` saved, the store invariant is kept, and the result is the saved record `{user, mood}` |

## Left out

- MoodRecord.MoodBuilder.Build: requires both fields to have been given. In the source a builder with an unset field builds a record holding `null`; null references are not modelled, and every builder chain in the code sets both fields.
- The builder is a mutable object whose setters return it; it is modelled as a value, since each use is one chain with no other reference to the builder.
- The other operations `MoodRepository` inherits from `CrudRepository` (`deleteById`, `delete`, `deleteAll`, `findAll`, `findAllById`, `existsById`, `count`, `saveAll`): nothing in the service calls them. Without a delete, no user returns from set to unset in this model.
- The setters, `toString` and `hashCode` that Lombok's `@Data` generates: nothing in the code calls them, and records are treated as immutable values.
- `null` arguments to `findById` or `save`, which the Spring repository rejects with an exception: not representable, since Dafny strings are never null.
- The Redis-backed repository variant, its hash serialisation and its connection setup (`RedisConfig.java`): network I/O and library configuration. Backend failures (connection refused, timeouts) are not modelled either.
- The log call in `setMood` (MoodService.java:31): informational only.
- Resolution of the message from the `mood_not_found_message` property: the message is a constructor parameter of `MoodService`.
- Spring dependency injection, `Application.java`, `MoodController.java` and the HTTP status mapping of `MoodNotSetException`: transport and bootstrap glue. The exception's message is the `message` field of `MoodNotSet`.
- Concurrent `setMood` calls: the code has no concurrency of its own; the model is sequential.
