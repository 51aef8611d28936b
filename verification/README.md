# Verified models of the framework's stateful cores

This project models seven components of the repository in Dafny and proves what they are there for.

| component | files | source |
|---|---|---|
| Server-sent-events client | `FrameParser`, `EventStream`, `EventStreamRuns`, `EventStreamStatus`, `EventStreamTheorems`, `EventStreamService` | `packages-web/angular/src/event-stream.ts` |
| HTTP cache policy | `CacheControl`, `CachePolicy`, `CacheRevalidation` | `tools/http-cache-semantics-safe/index.js` |
| Canonical JSON and idempotency keys | `CodePointOrder`, `JsonText`, `JsonNormalize`, `IdempotencyKey` | `packages-web/angular/src/idempotency.ts` |
| Concurrent multipart upload | `MultipartUpload`, `MultipartRuns`, `MultipartExecutor` | `packages-web/angular-storage/src/multipart-upload.executor.ts` |
| Audit hash chain and keyset paging | `AuditChain`, `AuditPaging` | `packages/audit/src/audit.service.ts` |
| Indexed permission cache | `PermissionCache` | `packages/auth/src/in-memory-permission-cache-backend.ts` |
| Base64url decoder | `Base64Url` | `packages-web/angular-auth/src/jwt.ts` |

`Machines` holds runs of deterministic machines, `Utf16` JavaScript text, `Wrappers` Option and Result.
`dafny verify dfyconfig.toml` checks everything.

## How the models are built

- **Objects that change in place are classes.** `FrameParser`, `StynxEventStreamService`,
  `InMemoryPermissionCacheBackend`, `WhereBuilder`, `Normalizer` and `MultipartUploadExecutor` update their fields
  step by step. Each method is proved equal to a function on the values of the fields, and the theorems are about
  that function.
- **Concurrency is a machine over atomic turns.** One input of `EventStream.Step` or `MultipartUpload.Step` is what
  the event loop does next: a transport or timer callback with the generation it was created with, a worker running
  to its next `await`, a request settling. The theorems quantify over every sequence of inputs, so over every
  interleaving. In the event-stream client a subscriber may call `stop`, or `stop` and `start`, from inside its
  handler; each turn carries what its subscribers do.
- **What cannot be seen is a parameter.** SHA-256 is any function to 64 hex digits; no theorem assumes it injective:
  each concludes equality *or* exhibits two different inputs with one digest. `Date.parse` and string-to-number
  conversion are functions of the `Host`. Printing a finite number is any function that gives different numerals to
  different numbers (`JsonText.NumeralsExist` shows that there is one). Clocks are arguments.
- **Arithmetic.** The base64 accumulator is a 32-bit vector with JavaScript's wrapping `<<` and sign-extending `>>`.
  Text is UTF-16 code units with lone surrogates. Ages, lifetimes and delays are reals.

## Where the code differs from what a reader might expect

Each of these is a proved lemma, with the exact condition under which the expected property does hold.

- The audit pager builds its cursor from the first row it does not return and compares with strict `<`: following
  `nextCursor` skips exactly one row at every page boundary (`AuditPaging.PageContents`), so it reads the whole log
  if and only if one page holds it, with either driver (`AuditPaging.FollowReadsEverythingIff`). When the driver returns times as `Date`,
  microseconds are lost and a whole run of rows can be skipped (`AuditPaging.DateSkipsOneIff`,
  `AuditPaging.DateCursorLosesARun`).
- A session re-registered under another user or tenant leaves an index entry that over-invalidates; invalidations stay
  exact if and only if that never happens (`PermissionCache.AlwaysExactIffGentle`; witnesses
  `PermissionCache.RehomedSidIsOverInvalidated`, `PermissionCache.RehomedTenantIsOverInvalidated`).
- `|` is not escaped in hashed audit payloads: a payload determines the fields of its row if and only if none of them
  contains it (`AuditChain.PayloadDeterminesFieldsIff`). So an accepted chain stays accepted when a `|` moves between
  the free texts `entity` and `entity_id` of a row (`AuditChain.RewrittenEntityIsAccepted`). The link to the previous row can be read back all the same
  (`AuditChain.LinkIsRecoverable`).
- A directive map with only the empty bare key prints as the empty text and is lost; every other safe map survives
  printing and parsing (`CacheControl.FormatRoundTrip`).
- A Cache-Control header added to a response switches its no-cache pragma off, so that `private` can turn the miss of a
  private cache into a hit (`CacheRevalidation.AddedDirectiveHelpsExactly`, `CacheRevalidation.PragmaIsSwitchedOff`).
- A negative `Age` lets `proxy-revalidate` improve an answer (`CachePolicies.ProxyRevalidateHelpsExactly`,
  `CacheRevalidation.NegativeAgeLetsProxyRevalidateHelp`).
- An updated cache policy takes its method from the revalidation request: after a `HEAD` revalidation a stored `GET`
  response misses for every `GET` (`CacheRevalidation.UpdatedVerb`, `CacheRevalidation.HeadRevalidationLosesTheGet`, witness
  `CacheRevalidation.HeadRevalidationHappens`).
- A 304 with an empty entity tag erases the stored one (`CacheRevalidation.TagStaysIff`, witness
  `CacheRevalidation.EmptyTagErasesTheTag`), after which another tag can be merged
  (`CacheRevalidation.AnotherTagIsMerged`).
- The table of headers that a 304 must not update is a plain object, so a header named `constructor` is never updated
  either (`CacheRevalidation.RunKeepsBodyAndTakesLatest`, `CacheRevalidation.InheritedNameIsNotUpdated`).
- Under `openStatus: 'first-line'` polling can stay shown without a polling timer until the first line of the next
  connection. Only a tenant change that opens a connection while polling is shown brings that about
  (`EventStreamStatus.StepIsHonestIff`, over whole runs `EventStreamStatus.AlwaysHonestIff`; a run that gets there:
  `EventStreamStatus.TenantChangeKeepsPollingShown`).
- With `concurrency <= 0` a multipart upload is completed at once with no parts (`MultipartRuns.AlwaysWholeExactly`).

## Model

| member | source | states |
|---|---|---|
| `FrameParsing.FrameParser.Feed` | packages-web/angular/src/event-stream.ts:122-145 | Feeding a chunk makes the callbacks and leaves the fields that the one-unit-at-a-time reference parser gives for it. |
| `FrameParsing.FrameParser.Line` | packages-web/angular/src/event-stream.ts:129-143 | One complete line has the effect of `TakeLine`: comment, field, or end of frame with the id reset. |
| `FrameParsing.ParseAppend` | packages-web/angular/src/event-stream.ts:122-145 | Feeding two chunks is feeding their concatenation, wherever the cut falls. |
| `FrameParsing.ChunksDoNotMatter` | packages-web/angular/src/event-stream.ts:266-279 | For every way of cutting a stream into growing cumulative texts, callbacks and final parser state are those of one feed of the whole. |
| `FrameParsing.FrameRoundTrip` | packages-web/angular/src/event-stream.ts:131-143 | A frame written line by line is delivered exactly, with its id, event and joined data, and leaves the parser as at the start. |
| `EventStreamServices.StynxEventStreamService.Start` | packages-web/angular/src/event-stream.ts:193-216 | `start` changes the fields and acts on the outside as `EventStream.Start`. |
| `EventStreamServices.StynxEventStreamService.TenantChanged` | packages-web/angular/src/event-stream.ts:201-214 | The tenant handler drops cursor, window, failures, connection and timers, announces a dropped cursor, and reopens unless a subscriber stopped or restarted. |
| `EventStreamServices.StynxEventStreamService.Stop` | packages-web/angular/src/event-stream.ts:218-235 | `stop` closes the connection, cancels every timer and the tenant subscription. |
| `EventStreamServices.StynxEventStreamService.Open` | packages-web/angular/src/event-stream.ts:237-293 | `open` stops, waits for a tenant, or replaces the connection by one that sends the cursor. |
| `EventStreamServices.StynxEventStreamService.Progress` | packages-web/angular/src/event-stream.ts:264-285 | A progress event counts bytes, feeds the parser, and replaces a connection over its byte limit. |
| `EventStreamServices.StynxEventStreamService.ServerClosed` | packages-web/angular/src/event-stream.ts:296-307 | A closed stream discards the cursor if it must, announces that, and goes on as `failed`. |
| `EventStreamServices.StynxEventStreamService.Deliver` | packages-web/angular/src/event-stream.ts:309-327 | A frame with a new id and JSON data moves cursor and window and is emitted if its name is wanted. |
| `EventStreamServices.StynxEventStreamService.Failed` | packages-web/angular/src/event-stream.ts:348-398 | A failure is recorded with status, body, time and outcome, and stops, reopens at once, or arms the retry timer with backoff or the server's delay. |
| `EventStreamServices.StynxEventStreamService.Handle` | packages-web/angular/src/event-stream.ts:193-384 | Every turn of the object is the step of the machine the theorems are about. |
| `EventStreamServices.StynxEventStreamService.HandleAll` | packages-web/angular/src/event-stream.ts:193-384 | Any number of turns of the object is a run of that machine. |
| `EventStreamRuns.RunIsGood` | packages-web/angular/src/event-stream.ts:193-384 | After every run from a fresh client, whatever transport, timers, session, tenant and subscribers do: the lifecycle invariant holds and the fields are those that replaying the outputs determines. |
| `EventStreamRuns.StepEnds` | packages-web/angular/src/event-stream.ts:193-384 | Every single turn keeps that invariant. |
| `EventStreamTheorems.NeverStuckNeverTwice` | packages-web/angular/src/event-stream.ts:193-307 | An active client with a tenant has exactly one of open connection and pending retry; an inactive one has no connection, no timer and no subscription. |
| `EventStreamTheorems.PendingTimerMovesOn` | packages-web/angular/src/event-stream.ts:336-384 | The retry timer of such a client reconnects with the cursor; the stale timer leaves the old connection for a new one or a retry. |
| `EventStreamTheorems.SilentWhenStopped` | packages-web/angular/src/event-stream.ts:218-240 | After a stop nothing is emitted and nothing is opened until the next `start`. |
| `EventStreamTheorems.StepLater` | packages-web/angular/src/event-stream.ts:225-235 | Generations never fall, and a lost connection or a stop raises the generation. |
| `EventStreamTheorems.ClosedConnectionIsIgnored` | packages-web/angular/src/event-stream.ts:250-265 | Once a connection is gone, its late callbacks change nothing, however long the client runs on. |
| `EventStreamTheorems.ReacceptedOnlyAfterAWindow` | packages-web/angular/src/event-stream.ts:309-327 | `seen` is the last 1,024 ids accepted since the last discard, the cursor is the newest, and an id is accepted again only after 1,024 other acceptances. |
| `EventStreamTheorems.EveryConnect` | packages-web/angular/src/event-stream.ts:201-304 | Every connect of every run finds the previous connection closed, every discarded cursor announced exactly once, and sends the newest accepted id. |
| `EventStreamTheorems.ResyncsPayDiscards` | packages-web/angular/src/event-stream.ts:296-304 | Over any allowed outputs, resyncs and discards of a held cursor match one to one, but for one still owed. |
| `EventStreamTheorems.FailuresAreTheWindow` | packages-web/angular/src/event-stream.ts:354-358 | The failures remembered are exactly the counted ones within the window of the newest (clock not going back), none if and only if none was counted, never more than were counted. |
| `EventStreamRuns.CountKeepsWindow` | packages-web/angular/src/event-stream.ts:354-358 | Filtering as failures come is the sliding window over all of them. |
| `EventStreamStatus.StatusTellsTheTruth` | packages-web/angular/src/event-stream.ts:246-258 | After every run live implies an open connection, no polling timer and no failure; polling implies a polling timer, or under `openStatus: 'first-line'` a connection still before its first line. |
| `EventStreamStatus.StepIsHonestIff` | packages-web/angular/src/event-stream.ts:193-384 | From a client whose shown polling has its timer, a turn leads to one whose shown polling has none if and only if it is a tenant change to another tenant, under first-line, while polling is shown and the session is active, that no subscriber told of a dropped cursor stops or restarts. |
| `EventStreamStatus.AlwaysHonestIff` | packages-web/angular/src/event-stream.ts:193-384 | Over any run of a fresh client the shown polling has its timer at every moment if and only if no turn is such a tenant change. |
| `EventStreamStatus.TenantChangeKeepsPollingShown` | packages-web/angular/src/event-stream.ts:201-214 | A run that gets there: start, one failure that enters polling, a tenant change. |
| `EventStreamTheorems.BackoffGrowsToTheCap` | packages-web/angular/src/event-stream.ts:381-383 | Exponential backoff never shrinks with more failures and never exceeds the cap. |
| `EventStreamTheorems.CountContinues` | packages-web/angular/src/event-stream.ts:269-278 | Counting a suffix after a prefix is counting the whole: UTF-8 length without a trailing unpaired high surrogate, which is held back. |
| `EventStreamTheorems.OpenedConnectionAccounts` | packages-web/angular/src/event-stream.ts:237-279 | From the moment a connection is opened, over any run in which it reports growing texts, bytes, pending surrogate and parser depend only on the text received. |
| `Utf16.Utf8LengthAppend` | packages-web/angular/src/event-stream.ts:271-278 | UTF-8 lengths add up at every cut that does not split a surrogate pair. |
| `CacheControl.NormalizeCacheControl` | tools/http-cache-semantics-safe/index.js:96-110 | The loop computes the normalized directive map. |
| `CacheControl.ParseCacheControl` | tools/http-cache-semantics-safe/index.js:112-126 | The loop parses a header into the directive map, with its keys in insertion order. |
| `CacheControl.FormatCacheControl` | tools/http-cache-semantics-safe/index.js:133-143 | The loop prints the directives in key order, or gives none for an empty map. |
| `CacheControl.KeyKeepsExactly` | tools/http-cache-semantics-safe/index.js:106-106 | Key normalization leaves exactly the trimmed lower-case keys alone. |
| `CacheControl.NormalizeSettles` | tools/http-cache-semantics-safe/index.js:96-110 | Normalizing any map in any key order gives a normal map, and changes exactly the maps that are not normal. |
| `CacheControl.ParseIsNormal` | tools/http-cache-semantics-safe/index.js:112-126 | Every parsed map is normal and holds no comma or equals sign. |
| `CacheControl.FormatRoundTrip` | tools/http-cache-semantics-safe/index.js:112-143 | For every map and key order, printing and parsing gives the map back if and only if it is safe (trimmed lower-case keys, values trimmed, no comma, equals sign or edge quotes, restrictive directives not empty) and is not the empty bare key alone. |
| `CacheControl.EmptyKeyAloneIsLost` | tools/http-cache-semantics-safe/index.js:112-143 | The map with only the empty bare key does not survive. |
| `CachePolicies.CheckVary` | tools/http-cache-semantics-safe/index.js:470-497 | The loop over the Vary fields decides whether every selecting header is equal or absent in both requests. |
| `CachePolicies.OutcomeOnlyDegrades` | tools/http-cache-semantics-safe/index.js:384-437 | For a fixed policy and request a later outcome is never better than an earlier one. |
| `CachePolicies.AnswersComeInPhases` | tools/http-cache-semantics-safe/index.js:384-437 | Over any times the answers are hits, then hits with revalidation, then misses, and never go back. |
| `CachePolicies.TimeToLiveIsExact` | tools/http-cache-semantics-safe/index.js:662-694 | The unrounded time to live is the exact length of the window in which the response is fresh or a stale extension covers it. |
| `CachePolicies.NothingIsServedAfterTimeToLive` | tools/http-cache-semantics-safe/index.js:598-694 | After it, only a request with max-stale is served and neither stale extension applies. |
| `CachePolicies.NoReusePathIsInadmissible` | tools/http-cache-semantics-safe/index.js:299-317 | No reuse path serves a response that is not storable, carries no-store, no-cache or must-revalidate, is private or authenticated without permission in a shared cache, or is stale there under proxy-revalidate or s-maxage. |
| `CachePolicies.RestrictiveDirectivesOnlyRestrict` | tools/http-cache-semantics-safe/index.js:237-317 | At a nonnegative age, one of the five restrictive directives more in the stored directive map makes a miss where it binds and changes nothing where it does not. |
| `CachePolicies.AnyRestrictionsOnlyRestrict` | tools/http-cache-semantics-safe/index.js:237-317 | The same for any number of restrictive directives more in that map. |
| `CacheRevalidation.AddedAnswersAsStored` | tools/http-cache-semantics-safe/index.js:157-437 | At every age, a restrictive directive added to a response answers as one more stored directive, of the response without its pragma if the pragma rule was in force, or changes nothing if the legacy option takes it out. |
| `CacheRevalidation.AddedDirective` | tools/http-cache-semantics-safe/index.js:157-437 | A restrictive directive added to the Cache-Control header of a response, at a nonnegative age: no change if the legacy option takes it out, a miss if it binds, else the answer of the response without its pragma if the pragma rule was in force, else no change. |
| `CacheRevalidation.AddedDirectiveHelpsExactly` | tools/http-cache-semantics-safe/index.js:218-222 | It improves an answer if and only if the response had a no-cache pragma and no Cache-Control, the cache is private, the directive is private or proxy-revalidate, and the response would be served without the pragma. |
| `CacheRevalidation.AddedDirectivesOnlyRestrict` | tools/http-cache-semantics-safe/index.js:157-437 | Without the pragma rule any number of added restrictive directives give a miss if one binds, and else no change. |
| `CacheRevalidation.PragmaIsSwitchedOff` | tools/http-cache-semantics-safe/index.js:218-222 | A response with a no-cache pragma and an Expires in the future that `private` makes a private cache serve. |
| `CacheControl.ParseOneMore` | tools/http-cache-semantics-safe/index.js:112-126 | A directive added to the end of a header is a bare directive added to the parsed map. |
| `CachePolicies.NonnegativeLifetimeOnlyRestricts` | tools/http-cache-semantics-safe/index.js:598-626 | At a negative age proxy-revalidate still only restricts if the lifetime is not negative. |
| `CachePolicies.ProxyRevalidateHelpsExactly` | tools/http-cache-semantics-safe/index.js:299-437 | For every policy, request and time, with stored proxy-revalidate the answer is better than without if and only if the cache is shared, the age negative, the request answerable at lifetime 0, and the old lifetime outside the request's limits or exceeded without leave to serve stale. |
| `CacheRevalidation.NegativeAgeLetsProxyRevalidateHelp` | tools/http-cache-semantics-safe/index.js:575-626 | A response with Age -5 and max-age -9 misses, and is served once proxy-revalidate is added to its header. |
| `CacheRevalidation.CreatePolicy` | tools/http-cache-semantics-safe/index.js:157-223 | The constructor builds the policy `Built`, with legacy directives taken out and the no-cache pragma counted. |
| `CacheRevalidation.BuiltIsNormal` | tools/http-cache-semantics-safe/index.js:188-222 | Every constructed policy has normal directive maps. |
| `CacheRevalidation.SerializationRoundTrip` | tools/http-cache-semantics-safe/index.js:701-751 | A policy survives serialization if and only if its directive maps are normal. |
| `CacheRevalidation.DeserializedIsNormal` | tools/http-cache-semantics-safe/index.js:709-727 | Every object of version 1 gives a policy with normal maps; any other version is an error. |
| `CacheRevalidation.MergeHeaders` | tools/http-cache-semantics-safe/index.js:903-906 | The merge loop replaces exactly the headers that are not excluded. |
| `CacheRevalidation.RevalidatedPolicy` | tools/http-cache-semantics-safe/index.js:825-918 | Revalidation reuses on error, fails without a response, replaces, or updates. |
| `CacheRevalidation.StrongTagSelects` | tools/http-cache-semantics-safe/index.js:852-858 | A response whose strong entity tag differs from the stored opaque tag never updates the stored one. |
| `CacheRevalidation.UpdatedVerb` | tools/http-cache-semantics-safe/index.js:908-917 | The updated policy keeps its method if and only if the revalidation request has that method. |
| `CacheRevalidation.HeadRevalidationLosesTheGet` | tools/http-cache-semantics-safe/index.js:191-191 | After a matched HEAD revalidation a stored GET response misses for every GET. |
| `CacheRevalidation.HeadRevalidationHappens` | tools/http-cache-semantics-safe/index.js:846-917 | A fresh GET response with an entity tag is served, is confirmed by a HEAD request, and then misses. |
| `CacheRevalidation.RunKeepsBodyAndTakesLatest` | tools/http-cache-semantics-safe/index.js:901-917 | Over any run of matched revalidations status and body headers stay, and every other header is the latest one carried; the three headers that the legacy option rewrites, when it is on, are those of `RunCleansLegacyHeaders`. |
| `CacheRevalidation.RunCleansLegacyHeaders` | tools/http-cache-semantics-safe/index.js:203-216 | With that option on, Cache-Control after any such run is the latest one carried, cleaned by each update, and Expires and Pragma are the latest ones carried after the last update that found both legacy directives. |
| `CacheRevalidation.CleanedIsNotLegacy` | tools/http-cache-semantics-safe/index.js:203-216 | A cleaned Cache-Control has lost both legacy directives, so cleaning it again changes nothing. |
| `CacheRevalidation.InheritedNameIsNotUpdated` | tools/http-cache-semantics-safe/index.js:59-65 | A header with a name every object inherits is not updated. |
| `CacheRevalidation.RunKeepsOpaqueTag` | tools/http-cache-semantics-safe/index.js:846-865 | Over any such run without empty entity tags the opaque tag stays, and every strong tag carried is that tag. |
| `CacheRevalidation.TagStaysIff` | tools/http-cache-semantics-safe/index.js:846-906 | After every part of a matched run the opaque tag is still the original one if and only if no exchange carries an empty tag. |
| `CacheRevalidation.EmptyTagErasesTheTag` | tools/http-cache-semantics-safe/index.js:846-906 | A stored tag, and a matched 304 with an empty one after which it is gone. |
| `CacheRevalidation.AnotherTagIsMerged` | tools/http-cache-semantics-safe/index.js:846-906 | A second 304 is matched after it and leaves a tag that is not the original one. |
| `CodePointOrder.CompareCodePoints` | packages-web/angular/src/idempotency.ts:21-29 | The loop computes the comparison by code points, then by length. |
| `CodePointOrder.LessIsTotal` | packages-web/angular/src/idempotency.ts:21-29 | The comparison is antisymmetric and total on UTF-16 texts, equal only for equal texts. |
| `CodePointOrder.LessIsTransitive` | packages-web/angular/src/idempotency.ts:21-29 | It is transitive. |
| `CodePointOrder.NotTheCodeUnitOrder` | packages-web/angular/src/idempotency.ts:21-29 | It differs from the order of code units. |
| `CodePointOrder.SortForgetsOrder` | packages-web/angular/src/idempotency.ts:73-73 | Sorting gives one result for all orders in which an object may list its keys. |
| `JsonText.EscapeUnique` | packages-web/angular/src/idempotency.ts:87-93 | A quoted text ends in one place and stands for one text, lone surrogates and control characters included. |
| `JsonText.PrintUnique` | packages-web/angular/src/idempotency.ts:87-93 | Whatever follows, a printed tree can be read in one way only. |
| `JsonText.PrintInjective` | packages-web/angular/src/idempotency.ts:87-93 | Two trees have the same text if and only if they are equal. |
| `JsonText.PrintIsWellFormed` | packages-web/angular/src/idempotency.ts:87-98 | Printed text has no lone surrogate, so its UTF-8 encoding loses nothing. |
| `JsonNormalize.Normalizer.NormalizeJson` | packages-web/angular/src/idempotency.ts:31-80 | The recursive procedure terminates on every finite graph, returns what `Normalize` gives, and leaves the active set as it was on success and on failure. |
| `JsonNormalize.Normalizer.NormalizeArray` | packages-web/angular/src/idempotency.ts:57-70 | The array loop normalizes every slot in order and stops at the first hole or failure. |
| `JsonNormalize.Normalizer.NormalizeObject` | packages-web/angular/src/idempotency.ts:72-76 | The property loop normalizes every property in sorted order. |
| `JsonNormalize.FailsExactly` | packages-web/angular/src/idempotency.ts:31-80 | On every graph it fails if and only if some walk from the value reaches a bad value or comes back to where it has been. |
| `JsonNormalize.FailsExactlyOnCycles` | packages-web/angular/src/idempotency.ts:45-45 | On a graph without bad values it fails if and only if a cycle can be reached; shared objects are accepted. |
| `JsonNormalize.AllNormalize` | packages-web/angular/src/idempotency.ts:57-76 | The contents normalize if and only if each of them does. |
| `IdempotencyKey.NormalizeKeepsMeaning` | packages-web/angular/src/idempotency.ts:31-80 | What a value normalizes to lists keys in ascending order and stands for the same JSON value. |
| `IdempotencyKey.MeaningDetermines` | packages-web/angular/src/idempotency.ts:72-76 | A tree with ascending keys is determined by its JSON value. |
| `IdempotencyKey.CanonicalJsonIsANormalForm` | packages-web/angular/src/idempotency.ts:82-93 | Two acceptable values have the same canonical JSON if and only if they are one JSON value up to key order and `-0 = 0`. |
| `IdempotencyKey.KeyIdentifiesCommand` | packages-web/angular/src/idempotency.ts:103-122 | Equal keys mean equal action, target and JSON body, or a collision of the two canonical texts; equal commands give equal keys. |
| `MultipartUpload.ListedChunksCountUp` | packages-web/angular-storage/src/multipart-upload.executor.ts:98-98 | Chunks numbered 1..chunkCount in any order are sorted into that order. |
| `MultipartUpload.SlicesMakeTheFile` | packages-web/angular-storage/src/multipart-upload.executor.ts:150-151 | The slices of parts 1..chunkCount are the file. |
| `MultipartUpload.SortAscends` | packages-web/angular-storage/src/multipart-upload.executor.ts:190-190 | Recorded parts are sent in strictly ascending order. |
| `MultipartRuns.RunIsGood` | packages-web/angular-storage/src/multipart-upload.executor.ts:91-151 | Under every interleaving a chunk is in the hands of at most one worker, and every chunk taken is recorded or in somebody's hands. |
| `MultipartRuns.NoChunkIsTakenTwice` | packages-web/angular-storage/src/multipart-upload.executor.ts:104-109 | The chunks taken are 0, 1, 2, … up to the cursor, each once. |
| `MultipartRuns.AtMostConcurrencyInFlight` | packages-web/angular-storage/src/multipart-upload.executor.ts:101-116 | The requests sent and not answered are those of the sending workers, never more than `concurrency`. |
| `MultipartRuns.EachChunkIsSentWithinBounds` | packages-web/angular-storage/src/multipart-upload.executor.ts:126-142 | No chunk is sent more than `retryAttempts + 1` times. |
| `MultipartRuns.CompletionIsRequestedOnceAndWhole` | packages-web/angular-storage/src/multipart-upload.executor.ts:116-190 | Completion is requested at most once, in ascending order, and with every part if there is a worker. |
| `MultipartRuns.CompletionHasExactlyTheParts` | packages-web/angular-storage/src/multipart-upload.executor.ts:184-191 | If statuses report only parts of the upload, the request has exactly the parts 1..chunkCount. |
| `MultipartRuns.AlwaysWholeExactly` | packages-web/angular-storage/src/multipart-upload.executor.ts:101-116 | Every completion request of every run has every part if and only if `concurrency >= 1` or there is nothing to upload. |
| `MultipartRuns.BodiesMakeTheFile` | packages-web/angular-storage/src/multipart-upload.executor.ts:150-158 | Every request carries the slice of its part; in order these are the file. |
| `MultipartRuns.ProgressNeverFalls` | packages-web/angular-storage/src/multipart-upload.executor.ts:207-221 | The percentages never fall, stay within what is recorded and at most 99, and a last 100 is shown exactly when the upload has finished. |
| `MultipartRuns.RunsEnd` | packages-web/angular-storage/src/multipart-upload.executor.ts:104-142 | However the events come, only a bounded number of them changes anything. |
| `MultipartRuns.NoDeadlock` | packages-web/angular-storage/src/multipart-upload.executor.ts:58-60 | An upload that no event can change has finished or has been rejected. |
| `MultipartExecutors.SumCompleted` | packages-web/angular-storage/src/multipart-upload.executor.ts:213-219 | The reduction sums the bytes of the recorded chunks. |
| `MultipartExecutors.MultipartUploadExecutor.Claim` | packages-web/angular-storage/src/multipart-upload.executor.ts:104-110 | A worker's turn takes the chunk at the cursor, skips it if it is recorded, or finds none left. |
| `MultipartExecutors.MultipartUploadExecutor.Decide` | packages-web/angular-storage/src/multipart-upload.executor.ts:134-140 | After a failure the worker goes on, gives up or sends the chunk again. |
| `MultipartExecutors.MultipartUploadExecutor.RecordReported` | packages-web/angular-storage/src/multipart-upload.executor.ts:178-181 | The loop records every part a status reports. |
| `MultipartExecutors.MultipartUploadExecutor.Handle` | packages-web/angular-storage/src/multipart-upload.executor.ts:91-221 | Every turn of the object is the step of the machine the theorems are about. |
| `MultipartExecutors.MultipartUploadExecutor.HandleAll` | packages-web/angular-storage/src/multipart-upload.executor.ts:91-221 | Any turns from the beginning leave the object in the state the theorems describe. |
| `AuditChain.VerifyChain` | packages/audit/src/audit.service.ts:297-333 | The loop accepts exactly the chains whose links and digests hold, and otherwise stops at the first row that breaks and names the event it blames. |
| `AuditChain.LinkIsRecoverable` | packages/audit/src/audit.service.ts:375-389 | Whatever the other fields hold, the last field of a payload is the previous hash, or GENESIS, if and only if that text has no separator. |
| `AuditChain.SeparatorMovesUnnoticed` | packages/audit/src/audit.service.ts:375-389 | A separator inside any of the ten fields can move to the neighbouring field: another row has the same payload and different fields. |
| `AuditChain.RewrittenEntityIsAccepted` | packages/audit/src/audit.service.ts:297-389 | Moving a separator between the entity and the entity id of any row leaves an accepted chain accepted, with the row about another entity. |
| `AuditChain.PayloadDeterminesFieldsIff` | packages/audit/src/audit.service.ts:375-389 | Every row with the same payload has the same ten printed fields if and only if none of them contains the separator. |
| `AuditChain.EqualLastPayloads` | packages/audit/src/audit.service.ts:301-333 | Accepted chains with equal last payloads are both of one row, or agree on the digest before. |
| `AuditChain.TamperEvident` | packages/audit/src/audit.service.ts:297-389 | Two accepted chains that end in the same row hash have the same length and the same payloads row by row, or contain two different payloads with one digest. |
| `AuditChain.ChainLinksIff` | packages/audit/src/audit.service.ts:304-330 | In an accepted chain every later row links to the row before it if and only if no row before the last has an empty event id. |
| `AuditPaging.BuildWhere` | packages/audit/src/audit.service.ts:90-125 | The clause and parameters admit exactly the rows the query asks for, every placeholder bound to its value. |
| `AuditPaging.Select` | packages/audit/src/audit.service.ts:127-149 | The query returns the first rows of the filtered log. |
| `AuditPaging.ListLog` | packages/audit/src/audit.service.ts:83-166 | A page is the first `limit` rows of the filtered log, with a cursor of the row after them. |
| `AuditPaging.PageSizeIsClosest` | packages/audit/src/audit.service.ts:85-85 | The page size is 50 without a limit, else the number from 1 to 200 strictly closest to it. |
| `AuditPaging.FilterThenBelow` | packages/audit/src/audit.service.ts:122-125 | Filtering with a cursor is filtering without it and keeping the rows below the cursor. |
| `AuditPaging.CursorMovesOn` | packages/audit/src/audit.service.ts:151-163 | A cursor leads strictly further; with text times to the very next row, with Date times past at most rows of the same millisecond. |
| `AuditPaging.FollowDescends` | packages/audit/src/audit.service.ts:122-163 | Following `nextCursor` terminates and visits rows in strictly descending order without repeats. |
| `AuditPaging.FollowIsPages` | packages/audit/src/audit.service.ts:122-163 | With exact cursors the pages followed are the pages by position. |
| `AuditPaging.PageContents` | packages/audit/src/audit.service.ts:151-163 | Page k is exactly the rows from `Offset(k, L)` on, at most L of them. |
| `AuditPaging.OffsetIs` | packages/audit/src/audit.service.ts:151-163 | That offset is k(L+1). |
| `AuditPaging.PageCount` | packages/audit/src/audit.service.ts:151-163 | There is one page for every L+1 rows and one for the rest. |
| `AuditPaging.SkippedRowIsNeverSeen` | packages/audit/src/audit.service.ts:151-163 | The row at each page boundary is on no page. |
| `AuditPaging.FollowReadsEverythingIff` | packages/audit/src/audit.service.ts:122-163 | With either driver, following `nextCursor` reads the whole log if and only if one page holds it. |
| `AuditPaging.LastReturnedIsExact` | packages/audit/src/audit.service.ts:151-163 | A cursor built from the last returned row would give an exact partition. |
| `AuditPaging.DateSkipsOneIff` | packages/audit/src/audit.service.ts:371-373 | With Date times a boundary skips just one row if and only if the next row is below the truncated time. |
| `AuditPaging.WholeMillisecondsPageAlike` | packages/audit/src/audit.service.ts:371-373 | On times of whole milliseconds both drivers page alike. |
| `AuditPaging.DateCursorLosesARun` | packages/audit/src/audit.service.ts:371-373 | Three rows of one millisecond of which a Date reader sees one. |
| `PermissionCache.InMemoryPermissionCacheBackend.Get` | packages/auth/src/in-memory-permission-cache-backend.ts:9-11 | What `get` returns is the last record set for the session, neither deleted since nor in the scope of an invalidation since; without re-homing it returns that record whenever there is one. |
| `PermissionCache.LookupReturnsTheSurvivor` | packages/auth/src/in-memory-permission-cache-backend.ts:9-54 | After every sequence of operations a stored record is that survivor, and without re-homing every survivor is stored. |
| `PermissionCache.InMemoryPermissionCacheBackend.Set` | packages/auth/src/in-memory-permission-cache-backend.ts:13-17 | `set` stores the record and lists it in both indexes. |
| `PermissionCache.InMemoryPermissionCacheBackend.Delete` | packages/auth/src/in-memory-permission-cache-backend.ts:19-27 | `delete` removes the record and its listings. |
| `PermissionCache.InMemoryPermissionCacheBackend.InvalidateScope` | packages/auth/src/in-memory-permission-cache-backend.ts:29-54 | The three branches remove one session after the other and end where removing them all at once does. |
| `PermissionCache.ScopeRoundTrip` | packages/auth/src/in-memory-permission-cache-backend.ts:30-33 | A scope of a user and a tenant without colons is read back. |
| `PermissionCache.RunKeepsListed` | packages/auth/src/in-memory-permission-cache-backend.ts:13-76 | After every sequence of operations each record is listed in both indexes. |
| `PermissionCache.InvalidateClears` | packages/auth/src/in-memory-permission-cache-backend.ts:29-54 | `u:t`, `*:t` and `*:*` then leave no matching record. |
| `PermissionCache.InvalidateIsExactIff` | packages/auth/src/in-memory-permission-cache-backend.ts:29-54 | They remove nothing else if and only if the bucket they consult, of the user or of the tenant, lists no record outside the scope that they would take. |
| `PermissionCache.SetKeepsTightIff` | packages/auth/src/in-memory-permission-cache-backend.ts:13-17 | Storing keeps the indexes tight if and only if it does not re-home a session. |
| `PermissionCache.SetKeepsExactIff` | packages/auth/src/in-memory-permission-cache-backend.ts:13-54 | From a tight cache of nameable users and tenants, every invalidation after a `set` is exact if and only if the `set` does not re-home a session. |
| `PermissionCache.AlwaysExactIffGentle` | packages/auth/src/in-memory-permission-cache-backend.ts:13-54 | Over a whole run every invalidation is exact at every moment if and only if no `set` re-homes a session. |
| `PermissionCache.GentleInvalidateIsExact` | packages/auth/src/in-memory-permission-cache-backend.ts:13-54 | In every run that never re-homes a session, invalidation removes exactly the matching records. |
| `PermissionCache.OverInvalidationIsRehomed` | packages/auth/src/in-memory-permission-cache-backend.ts:40-53 | A record removed without matching was set before under the user or the tenant of the scope. |
| `PermissionCache.RehomedSidIsOverInvalidated` | packages/auth/src/in-memory-permission-cache-backend.ts:45-53 | A session moved to another user is removed by an invalidation of its old user. |
| `PermissionCache.RehomedTenantIsOverInvalidated` | packages/auth/src/in-memory-permission-cache-backend.ts:40-43 | A session moved to another tenant is removed by an invalidation of its old tenant. |
| `Base64Url.DecodeBase64` | packages-web/angular-auth/src/jwt.ts:3-27 | The loop over a wrapping 32-bit accumulator computes the grouping of RFC 4648, section 4, and rejects the first foreign character before padding. |
| `Base64Url.Turn` | packages-web/angular-auth/src/jwt.ts:19-24 | One turn keeps fewer than eight waiting bits and the intact low bits, and emits the byte they complete. |
| `Base64Url.PushKeepsIntactBits` | packages-web/angular-auth/src/jwt.ts:19-19 | Shifting out high bits never touches the bits still to be read. |
| `Base64Url.DecodeBase64Url` | packages-web/angular-auth/src/jwt.ts:29-32 | The URL alphabet is translated and the padding that is added changes nothing. |
| `Base64Url.PaddingIsIgnored` | packages-web/angular-auth/src/jwt.ts:31-32 | Text from the first padding character on is ignored. |
| `Base64Url.EncodeInvertsDecode` | packages-web/angular-auth/src/jwt.ts:3-27 | Encoding what was decoded gives the sextets back if and only if they are canonical. |
| `Base64Url.RoundTrip` | packages-web/angular-auth/src/jwt.ts:29-38 | For every byte sequence, decoding its base64url form without padding returns the bytes. |

## Left out

- Angular dependency injection, signals, RxJS, `HttpClient`, `fetch` and XHR: only the events they deliver are inputs. The transport is taken to emit asynchronously, after `subscribe` has returned.
- `StynxEventStreamService` keeps its fields in a few records (host, signals, timers, receipt, life, memory); aliasing between subscriptions and timers is not modelled beyond their generation tags.
- The clock of a pending timer: a timeout is an input that may come at any time, so delays are computed but not waited for.
- The configuration checks of `provideStynxEventStream`; an error carries its body already decoded.
- Event data: `JSON.parse` is a predicate that says which texts are JSON.
- `responseHeaders`, `revalidationHeaders`, the removal of hop-by-hop headers and warnings of the cache policy: they print headers and do not decide reuse.
- TimeToLive: stated before `Math.round` takes it to whole milliseconds, because rounding down can end the entry up to half a millisecond early.
- Requests and responses without a headers object, which the cache policy rejects with an error, and a deserialized policy that has a Vary header but no request headers.
- Integer texts of a size a double cannot hold exactly, in `parseInt` and in `Number(id)`; header texts outside ASCII are not lower-cased.
- AddedDirective: requires a nonnegative age, because at a negative one proxy-revalidate can help; `AddedAnswersAsStored` and `ProxyRevalidateHelpsExactly` say when.
- TamperEvident: requires event ids that are not empty, because `event_id` is a uuid column (`database/ddl/02-audit.sql:10`); `ChainLinksIff` says what an empty one would do.
- `toJSON` methods and getters in `normalizeJson`: objects are plain data.
- The interceptor around the idempotency key: which requests get one, and the `Content-Type` test.
- Multipart: initiation, the single-request path for small files, URLs and headers of the chunk requests. Part numbers are taken to be exactly 1..chunkCount and the chunk size to be positive; progress is rounded from a real quotient.
- SQL, PostgreSQL and partitions: a log is a sequence in the order of the query with unique ids. A limit that is not a number is left out.
- `occurred_at` is handed over in one form by a driver for all rows.
- `subscribe` and `publish` of the permission cache; `await` inside one invalidation does not interleave with other calls.
- The `atob` and `TextDecoder` branches of the JWT reader, and the parsing of the payload.
