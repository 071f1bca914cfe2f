# Verified models of LiteEnd-Go's stateful components

Dafny models of the parts of the backend whose guarantees cover whole runs rather than single calls,
with proofs of those guarantees. `dafny verify dfyconfig.toml` checks the project.

| file | models |
|---|---|
| `KeySet.dfy` | the JSON Web Key Set cache: when a token makes the server refetch the keys, and what a fetch changes |
| `ChannelName.dfy`, `PubSub.dfy` | the Redis channel of a profile, and registration and fan-out of its events inside a process |
| `Subscriptions.dfy` | the slots of a WebSocket connection, the bridge goroutine of a subscription, and all interleavings of these with the hub |
| `ProfileStore.dfy` | the profile table, the Redis cache in front of it, and the service's operations call by call |
| `ProfileCoherence.dfy` | the service with one caller at a time, against a service without a cache |
| `ProfileRuns.dfy` | the service with any number of concurrent callers, cache and database faults, and direct row edits |
| `UploadCommit.dfy`, `UploadRuns.dfy` | committing a batch of uploads with faults at every call, alone and interleaved with other batches |
| `FileLinks.dfy`, `Filename.dfy`, `Avatars.dfy` | keys and links of stored files, the bound on filenames, and how avatars are stored and served |
| `NetAddr.dfy`, `AddressText.dfy`, `RealIP.dfy` | addresses as Go's `net` package reads them, their grammar, and the client address behind trusted proxies |
| `Basics.dfy`, `Numerals.dfy`, `Profile.dfy` | an optional value, prefixes, decimal numerals, and the profile row |

How the models are built:

- A component that updates its fields is a class. Each method is proved equal to a function on the
  class's abstract state, and the run-level theorems are about sequences of that function's steps.
- Concurrency is a state machine: one step per critical section, channel operation, or call to the
  database, Redis or the object store. A run is any sequence of steps; a step that cannot happen (a
  send that would block, say) leaves the state as it is, so every sequence is one interleaving. A
  panic (closing a closed channel, sending on one) is an outcome of its own, which the theorems exclude.
- The clock, the identity provider's answers, the fate of every network call, the outcome of
  `url.Parse` and the query a signed link carries are parameters.
- A Go channel is a handle into a map that holds its buffer and whether it is closed.
- Times are nanoseconds since Go's zero time, and subtraction saturates as `time.Time.Sub` does. The
  clock never steps back and is past 1970.

What the proofs show about promises made in the source:

- `config.OIDCJWKSMaxAge` promises that a removed key stops verifying within maxAge. The age is counted
  from the moment an answer has been read, so a removed key can outlive maxAge by the duration of that
  fetch: it is out of use `grace` past maxAge in every run exactly when no fetch takes longer than
  `grace` + 1 ns to load (`RemovedKeyStopsExactlyWhen`), and within maxAge itself exactly when none takes
  longer than 1 ns (`MaxAgeIsKeptExactlyWhen`).
- `Update` promises that reads after it reflect the change. With one caller at a time that holds exactly
  when its delete or its set took effect, or nothing was there to go stale
  (`UpdateIsCoherentExactlyWhen`; `FailedRefreshKeepsTheOldRow` is a run in which it does not). With
  concurrent callers, reads from some moment on reflect the row exactly when no live cache entry and no
  operation about to store holds an older version at that moment (`ReadsReflectExactlyWhen`); for an
  update that has just stored its row, exactly when no other operation is still about to store an older
  one (`UpdateIsReflectedExactlyWhen`). `SlowReaderUndoesAnUpdate` is how such an operation undoes an
  update although no call fails; what then still holds is the bound of `StalenessIsBounded`.
- `SaveMetadata` promises that no failure leaves a row without its object. That holds exactly for keys
  that are new to the table and pairwise distinct (`NoRowLosesItsObjectExactlyWhen`), as the random keys
  of `objectKey` are; a taken key makes the rollback remove the other row's object.
- Parsing a channel name undoes printing it, but not the other way round: `+7` and `007` are routed to
  profile 7 too (`OddNamesAreRouted`). The two agree exactly on canonical numerals (`FormatUndoesParse`,
  `NameUndoesRoute`).

## Model

| member | source | states |
|---|---|---|
| KeySet.SigningKeysAreTheSigningKeys | internal/auth/keyset.go:109-115 | the loop of refresh keeps exactly the public keys of a document that are not for encryption |
| KeySet.CachedKeySet.constructor | internal/auth/keyset.go:46-51 | a new set has nothing loaded, the given minimum interval, a retry interval of one second and a maximum age of ten minutes |
| KeySet.CachedKeySet.Refresh | internal/auth/keyset.go:90-121 | an answer is usable iff it is a 200 with a document that has a public key not for encryption; a usable one replaces keys, key ids and load time together, any other changes nothing |
| KeySet.CachedKeySet.VerifySignature | internal/auth/keyset.go:54-87 | the call's whole effect on keys, key ids and both timers, whether it fetched, and its verdict: verified with the token's payload iff a loaded key verifies the signature |
| KeySet.VerifiesExactlyWhen | internal/auth/keyset.go:77-87 | over whole runs a token verifies iff its signature was made with the key of a public entry, not for encryption, of the document last loaded |
| KeySet.FetchesExactlyWhen | internal/auth/keyset.go:57-75 | over whole runs a token causes a fetch iff nothing is loaded and the last attempt was retryEvery ago, or its key id is missing or unknown and that was minInterval ago, or the document is maxAge old and that was retryEvery ago |
| KeySet.StateIsItsHistory | internal/auth/keyset.go:70-75 | after any run the state is given by the last attempt and the last load alone, so failed refreshes have changed nothing but the attempt timer |
| KeySet.KidsAreTheLoadedSigningKeys | internal/auth/keyset.go:107-119 | in every reachable state the key ids and the keys are those of exactly the signing keys of the document last loaded |
| KeySet.FreshOrJustFailed | internal/auth/keyset.go:60-75 | the set in use after a call is younger than maxAge unless the last attempt failed less than retryEvery ago |
| KeySet.RemovedKeyStopsVerifying | internal/auth/keyset.go:35-37 | if fetches succeed from T on and take at most d, a key the provider removed at T is in no set used from T + maxAge + d - 1 ns on |
| KeySet.RemovedKeyOutlivesMaxAge | internal/auth/keyset.go:119 | for every d there is a run of successful fetches taking at most d in which the key is used at T + maxAge + d - 2 ns |
| KeySet.RemovedKeyStopsExactlyWhen | internal/auth/keyset.go:35-37 | over all runs, removed keys are out of use maxAge + grace after their removal iff no fetch takes longer than grace + 1 ns |
| KeySet.MaxAgeIsKeptExactlyWhen | internal/config/constants.go:97-99 | the documented maxAge is kept over all runs iff no fetch takes longer than 1 ns |
| KeySet.PublishedKeyIsPickedUp | internal/config/constants.go:90-93 | a key id published at T is in the set used for any token naming it from T + minInterval on |
| KeySet.LoadsOnceTheProviderAnswers | internal/auth/keyset.go:61-66 | from retryEvery after the provider begins to answer no token finds the set unloaded |
| KeySet.KnownKeyIdsAskForNothing | internal/auth/keyset.go:23-28 | a token naming a key of a set younger than maxAge causes no fetch, whatever its signature |
| KeySet.FetchRate | internal/auth/keyset.go:59-75 | whatever tokens arrive, a window of length W holds at most floor(W/retryEvery) + 1 fetches |
| KeySet.LoadedFetchRate | internal/auth/keyset.go:24-26 | from any load on, as long as attempts succeed, a window of length W holds at most floor(W/minInterval) + 1 fetches |
| ChannelName.FormatIsCanonical | internal/profile/pubsub.go:27-29 | what FormatInt prints is a canonical numeral, and parses back for every int32 |
| ChannelName.FormatUndoesParse | internal/profile/pubsub.go:157-160 | printing a parsed numeral gives it back if and only if it is canonical |
| ChannelName.RouteUndoesName | internal/profile/pubsub.go:27-29 | an event on the channel of an int32 id, negative ones included, is routed to that id |
| ChannelName.NameUndoesRoute | internal/profile/pubsub.go:153-160 | a routed channel is the name of the id it is routed to if and only if its numeral is canonical |
| ChannelName.RoutesExactly | internal/profile/pubsub.go:152-160 | the channels routed to an id are exactly the prefix followed by its decimal digits, with any leading zeros and a sign that fits |
| ChannelName.OddNamesAreRouted | internal/profile/pubsub.go:153-160 | channels that are no profile's name, with a plus sign or leading zeros, are routed to a profile |
| ChannelName.NamesAreInjective | internal/profile/pubsub.go:24-29 | no two ids share a channel |
| PubSub.CleanupKeepsValid | internal/profile/pubsub.go:92-101 | the cleanup does not close a closed channel, and keeps registrations and open channels in agreement |
| PubSub.DispatchDropsOnlyWhenFull | internal/profile/pubsub.go:148-174 | a dispatch fills the empty buffer of a listener of its user, touches no other channel, and drops the event only for a full buffer |
| PubSub.RegisteredIffOpen | internal/profile/pubsub.go:83-103 | a channel is registered iff open, under one user id only, and no user id is left with no channels |
| PubSub.PubSub.SubscribeForUser | internal/profile/pubsub.go:83-103 | a fresh open channel is registered under the user and a cleanup awaits the end of its context |
| PubSub.PubSub.CleanUp | internal/profile/pubsub.go:92-101 | the channel is unregistered, an emptied inner set removed, and the channel closed once |
| PubSub.PubSub.Dispatch | internal/profile/pubsub.go:152-174 | the loop, in any order of listeners, leaves every listener offered the event once and all else as it was |
| Subscriptions.AcquireSubscription | internal/graph/resolver/resolver.go:42-55 | refused for want of a WebSocket iff there is no budget, granted iff there is one with a free slot, and never beyond the budget |
| Subscriptions.AcquiresExactlyWhen | internal/graph/resolver/resolver.go:34-55 | in every reachable state a connection can acquire a slot iff it has a budget and fewer unreleased subscriptions than that |
| Subscriptions.HearsExactlyWhen | internal/profile/pubsub.go:83-174 | in every interleaving a subscription is offered an event iff the event's channel routes to its own user and its profile channel is registered and open |
| Subscriptions.InFlightCanBeDelivered | internal/graph/resolver/schema.resolvers.go:174-184 | from any reachable state the subscription's own steps alone bring every event that found room to the subscriber |
| Subscriptions.LeavesExactlyWhen | internal/graph/resolver/schema.resolvers.go:168-188 | in every interleaving a bridge leaves its loop by exactly three exits: its context done, its profile channel closed and empty, a panic recovered |
| Subscriptions.RunsKeepInv | internal/profile/pubsub.go:83-174 | in every interleaving nothing is closed twice or sent to after a close, registrations match open channels, and the slots in use are the subscriptions not yet released, within budget |
| Subscriptions.LeavingReleasesTheSlot | internal/graph/resolver/schema.resolvers.go:166-173 | the two deferred calls of a bridge that has left its loop, taken together, close its channel and give back one slot, and after any further run it is still done |
| Subscriptions.ReleasedExactlyOnce | internal/graph/resolver/resolver.go:42-55 | over every run a subscription's slot is taken once, its channel closed and its slot given back at most once, and given back exactly when it is done |
| Subscriptions.DeferredCallsNeverBlock | internal/graph/resolver/schema.resolvers.go:166-173 | in every interleaving, whichever exit a bridge took, its close finds an open channel and its release a slot to take back |
| Subscriptions.CancelledAlwaysGetsOut | internal/graph/resolver/schema.resolvers.go:174-188 | a cancelled subscription always has a possible step nearer to its release; only a cancelled one can find its profile channel closed |
| Subscriptions.RunsKeepOrder | internal/graph/resolver/schema.resolvers.go:164-190 | the events that found room are the delivered ones, then the output slot, the hand and the source slot, in order |
| Subscriptions.EventsAreConserved | internal/graph/resolver/schema.resolvers.go:164-190 | while a bridge is in its loop, dispatched = delivered + dropped + in flight, with at most one in each of three places |
| Subscriptions.DeliveredIsSubsequence | internal/graph/resolver/schema.resolvers.go:174-184 | what a subscriber reads is an in-order subsequence, without duplicates, of the events dispatched to its user while registered |
| Subscriptions.DrainedSubscriberGetsEverything | internal/profile/pubsub.go:148-151 | a subscription drained before each dispatch loses nothing and keeps the order |
| Subscriptions.PublishedEventsReachTheirOwner | internal/profile/pubsub.go:72-79 | events sent through Publish are delivered only to subscriptions of their own profile id |
| ProfileStore.UpsertKeepsKeys | db/queries/profile.sql:4-13 | the upsert returns the subject's row under the id it had with updated_at touched, or under the next id one with the role USER, empty columns and the current time; it changes no other row and draws one number |
| ProfileStore.LastSentWins | db/queries/profile.sql:15-34 | over a run of updates each column holds what was last sent for it, untrimmed, or nothing if that was only tabs, line breaks and spaces, independently of the others; nothing else but updated_at changes |
| ProfileStore.Service.FromCache | internal/profile/service.go:170-188 | a hit is a readable entry less than five minutes old; a garbled one is dropped; a failing cache is a miss |
| ProfileStore.Service.SelectBySub | db/queries/profile.sql:1-2 | the row of the subject, if there is one |
| ProfileStore.Service.Create | internal/profile/service.go:87-94 | the upsert's effect and result, including a failure reported before or after it took effect; a subject without a row gets one with the role USER and empty columns |
| ProfileStore.Service.FindOrCreateBySub | internal/profile/service.go:61-80 | its calls in order: cache, select, upsert, store; answers with the cached profile, the subject's row, or a new one with the role USER and empty columns, and leaves in the cache what it answered |
| ProfileStore.Service.FindBySub | internal/profile/service.go:100-113 | its calls in order: cache, select, store; answers with the cached profile, the subject's row, or not found, and leaves in the cache what it answered |
| ProfileStore.Service.Update | internal/profile/service.go:144-163 | its calls in order: update, delete, store; each column follows what was sent for it, nothing else but updated_at changes, and the cache is left with the new row, or empty if only the delete worked |
| ProfileCoherence.ReadsAgree | internal/profile/service.go:61-113 | a read or first sign-in answers as the table alone would, or better if the table fails, and keeps the cache coherent |
| ProfileCoherence.UpdateIsCoherentExactlyWhen | internal/profile/service.go:158-162 | after an update that wrote the row the cache is coherent iff it reported success and its delete or set took effect, or no readable entry was there to go stale, or it changes nothing in the row |
| ProfileCoherence.FailedRefreshKeepsTheOldRow | internal/profile/service.go:199-207 | a run from a fresh service in which an update reports success, its delete and set fail, and the next read gives the old row |
| ProfileCoherence.OperationAgrees | internal/profile/service.go:61-163 | every operation keeps the cache coherent, changes the table as the reference does, and answers as it does |
| ProfileCoherence.CacheIsTransparent | internal/profile/service.go:142-163 | over any sequence of operations whose updates refresh the cache, the cached service answers as one without a cache |
| ProfileCoherence.SlowReaderUndoesAnUpdate | internal/profile/service.go:142-143 | a reader that stores after an update what it read before makes the next read return the old row |
| ProfileRuns.RunsKeepInv | internal/profile/service.go:46-50 | in every interleaving each cache entry and each profile in hand is a version the row had when it was read |
| ProfileRuns.StalenessIsBounded | internal/config/constants.go:135-138 | a profile served from the cache is a whole version its subject's row had, no longer ago than the TTL plus the read-to-store delay of whoever filled the entry |
| ProfileRuns.OneRowPerSubjectEver | db/queries/profile.sql:5-13 | over the whole history a subject has at most one row |
| ProfileRuns.EveryCallerGetsTheSameProfile | internal/profile/service.go:82-94 | all successful callers for a subject get the same profile id, from cache, select or upsert |
| ProfileRuns.RolesComeFromEditsOnly | db/queries/profile.sql:4-34 | in every interleaving every version of every row, and every profile answered, has the roles [USER] unless a direct edit of that row set them |
| ProfileRuns.ReadsReflectExactlyWhen | internal/profile/service.go:142-163 | from any reachable state, all reads begun later give the row as it is, while it stays so, iff no live entry and no operation about to store holds an older version |
| ProfileRuns.UpdateIsReflectedExactlyWhen | internal/profile/service.go:158-162 | once an update has stored its row, all later reads reflect it iff no other operation is still about to store an older version |
| UploadCommit.Service.CreateUpload | db/queries/upload.sql:1-7 | the row is inserted iff the call goes through and the filepath is free, and says of the file its key, names, types and size, the uploader's address and the owner |
| UploadCommit.Service.SaveMetadata | internal/upload/service.go:431-457 | the loop does the calls of each file in order and stops at the first that fails |
| UploadCommit.Service.OwnedBy | internal/upload/service.go:212-229 | true iff the key has a row whose uploader is this profile |
| UploadCommit.BatchLeavesExactlyItsCommits | internal/upload/service.go:411-430 | the storage after a batch is exactly its committed prefix plus what became of the file it stopped at, and it succeeds iff no call failed |
| UploadCommit.WhatABatchLeaves | internal/upload/service.go:429-454 | key by key: rows of files 0..i-1 only, each column as uploaded and by whom, their objects, earlier data unchanged, later files untouched, and exactly when file i's object remains; the count reported is i |
| UploadCommit.NoRowLosesItsObjectExactlyWhen | internal/upload/service.go:420-422 | no pattern of faults leaves a row without its object iff the batch's keys are new and pairwise distinct |
| UploadRuns.RunsKeepInv | internal/upload/service.go:431-457 | in every interleaving no key still to be inserted has a row, and each batch's put object is in place until its insert |
| UploadRuns.EveryRowIsBackedAtEveryStep | internal/upload/service.go:420-422 | after every step of every interleaving each row points at a stored object of the row's size |
| UploadRuns.RowsAreFinal | internal/upload/service.go:396-399 | a row there at any step, committed in the run or before, is still there at its end with the same object, whatever rollbacks come between |
| UploadRuns.CommittedFilesAreRecorded | internal/upload/service.go:436-452 | in any interleaving, once a batch has committed a file, every later state has its row, column by column as sent, owned by exactly the profile that sent it, and its object with the file's data and type |
| UploadRuns.WhatEachBatchLeaves | internal/upload/service.go:411-430 | at every step of every interleaving each batch has left the rows and objects of its first i files, i as its error reports it, no row of the others, and file i's object exactly when its put or its removal went wrong |
| UploadRuns.NothingElseIsLeft | internal/upload/service.go:411-418 | under a key no batch has brought, row and object are as at the start |
| FileLinks.KeyFromLinkExactly | internal/upload/service.go:237-258 | a link has a key iff the key is not empty, has no leading slash, no two dots in a row and no question mark, and the link is the base, a slash and the key, with or without a query |
| FileLinks.KeyComesBackFromItsLink | internal/upload/service.go:195-210 | the key comes back from any link handed out for it iff it is plain |
| FileLinks.MadeKeysArePlain | internal/upload/service.go:361-368 | every key the service makes is plain |
| FileLinks.MadeKeysAreDistinct | internal/upload/service.go:361-368 | keys made with different random names are different |
| Filename.ValidPrefixExactly | internal/upload/service.go:377-381 | a prefix of valid UTF-8 is valid iff the next byte begins a character or there is none |
| Filename.ValidUtf8Exactly | internal/upload/service.go:370-372 | the byte strings taken for valid UTF-8 are exactly the encodings of sequences of Unicode scalar values |
| Filename.BoundedFilename | internal/upload/service.go:373-382 | for every valid name the longest valid prefix of at most 255 bytes, at most 3 bytes below the cap; for any bytes, a prefix cut where a character can begin |
| Avatars.StoringNormalises | internal/graph/resolver/convert.go:61-91 | a stored link is nobody's, somebody else's unchanged, or the permanent link of an owned file with the same key |
| Avatars.StoringExactly | internal/graph/resolver/convert.go:72-91 | a link of ours is stored as its key's permanent link iff the lookup works and the profile owns the file, refused iff it does not own it; any other link is stored as it is |
| Avatars.ServingExactly | internal/graph/resolver/convert.go:40-59 | a stored link of ours is served, bare in public mode and signed in private mode, iff the lookup works, the profile owns the file and a needed signature can be made; any other is served as it is |
| Avatars.StoringIsIdempotent | internal/graph/resolver/convert.go:61-91 | storing what was stored changes nothing |
| Avatars.OnlyOwnFilesAreServed | internal/graph/resolver/convert.go:37-58 | whatever the database holds, a served link of ours is for the stored key and a file the profile owns |
| Avatars.OwnFileIsServed | internal/graph/resolver/convert.go:28-59 | a stored own file is served as a link for that same key when lookup and signing work |
| Avatars.OwnAvatarsAreServedBack | internal/graph/resolver/convert.go:40-91 | after any run an own-storage avatar is the permanent link of a file its profile owns and is served back for that key |
| Avatars.Resolver.UpdateProfile | internal/graph/resolver/schema.resolvers.go:27-53 | each refusal exactly when it is due, with nothing touched; of an accepted input each column follows what was sent for it and nothing else but updated_at changes; a successful update is published on its own channel as the row written, a failed one is not |
| Avatars.ColumnsFollowAcceptedInput | internal/graph/resolver/schema.resolvers.go:27-43 | over any run of sign-ins, uploads and updates each column of a row holds what was last accepted for that column of that row: as sent, nothing if blank, a file of ours as its permanent link |
| NetAddr.AddressShape | internal/middleware/realip.go:73-75 | what ParseIP accepts has only hexadecimal digits, dots and colons, and no colon or at least two |
| AddressText.IsIPExactly | internal/middleware/realip.go:73-75 | what ParseIP accepts are exactly four decimal numbers up to 255 between dots, without leading zeros, and the text forms of IPv6 addresses of RFC 4291 |
| NetAddr.SplitUndoesJoin | internal/middleware/realip.go:28-33 | SplitHostPort undoes JoinHostPort for every address and every port it can have let through |
| NetAddr.BareAddressDoesNotSplit | internal/clientip/clientip.go:24-28 | a bare address is never read as a host and a port |
| RealIP.RewriteRemoteAddr | internal/middleware/realip.go:24-41 | a resolved address is what ClientIP reads back, with the socket's port kept if it had one; otherwise the socket address stays |
| RealIP.ValidIPExactly | internal/middleware/realip.go:66-88 | an entry resolves to an address iff it is that address bare, bracketed, or with a port, with nothing but white space around it |
| RealIP.EntryFromTheRightDecides | internal/middleware/realip.go:45-60 | entries sent as one line or several resolve to the address given by the one trustedHops from the right, and to nothing if that gives none or there are too few |
| RealIP.ListedAddressResolves | internal/middleware/realip.go:49-60 | a line of addresses with any white space around them resolves to the one trustedHops from the right |
| RealIP.RealIPHeaderDecides | internal/middleware/realip.go:61-63 | without an X-Forwarded-For text the address is the one X-Real-IP gives, white space around it or not |
| RealIP.ClientIPReadsBack | internal/clientip/clientip.go:24-30 | ClientIP reads an address back with a port, without one, and from brackets |
| RealIP.OnlyTheEndOfTheTextCounts | internal/middleware/realip.go:49-60 | text left of enough entries has no say in the address, nor has X-Real-IP |
| RealIP.ClientLinesHaveNoSay | internal/middleware/realip.go:9-16 | lines the proxies appended, with at least trustedHops entries, decide the address whatever the client sent |
| RealIP.ExtendingTheLastLineIsTheSame | internal/middleware/realip.go:49-53 | a proxy that extends the client's last line is read as one that adds its own |
| RealIP.ClientHasNoSayExactlyWhen | internal/middleware/realip.go:45-64 | nothing the client sends has a say iff the appended lines are not empty and hold at least trustedHops entries |
| RealIP.ResolvedIsAddress | internal/middleware/realip.go:18-23 | what is resolved is an address or nothing, and nothing without trusted proxies |

## Left out

- Signature checking, JWKS decoding and the HTTP fetch: a fetch is an answer given as a parameter, a token is its key id and the keys it verifies under.
- JSON encoding of cached profiles and events: lossless, with a separate case for a value that does not decode.
- Redis itself: delivery between Publish and the process's pump is not modelled; a dispatch step may carry any channel and payload at any time.
- NewPubSub, Start, Stop, pump and safeDispatch: the loop around dispatch; the panic safeDispatch would recover from is shown not to happen in the channel operations.
- ProfileUpdated before its slot is acquired (no user, no pub/sub): these paths touch nothing. Its goroutine is modelled as steps of a state machine, the conversion of an event as the identity or a panic.
- Presigning, linkSignerFor and parseEndpoint: a signed link is the permanent link with a query appended; keys that a signer would percent-encode are none the service makes.
- ProcessFile, MIME sniffing and the multipart handler: a file arrives validated, with its size the length of its data and within the cap.
- UploadCommit.Service.PutObject: does not model the Content-Disposition and Cache-Control of a stored object, because they are computed from the key and the service's settings, and no code here reads them back; an object is its data and content type.
- Inserts into uploads that report an error although the row was committed: the rollback assumes a failed insert left no row, and so do the proofs.
- Deleting profiles or uploads by hand, and edits that change a row's key or subject: no code here does it.
- The mock user and the roles it overrides in memory: they never reach the table.
- The GCRA limiter and the IPv6 prefix of the rate key: the limiter lives in a library; the address it is keyed by is the one proved here.
- ParseIP, SplitHostPort and JoinHostPort are modelled after the Go standard library, whose code is not part of this repository; url.Parse is a parameter.
- Strings are sequences of characters except in Filename, which is about bytes.
- Generated GraphQL code, routing, logging, security headers, translations, health probes, configuration loading, workers and migrations.
