# Verified models of the Evolution stack

Dafny models of the parts of the repository that keep state under failure and
concurrency, with proofs of what they promise. `dafny verify dfyconfig.toml` checks
all of them.

**App state synchronisation** (`LtHash`, `AppStateLog`, `AppStateStore`, `Processor`,
`Server`, `Sync`, `ContactSync`, `DispatchLaws`, `KeyRequests`). The server is an
append-only log of patches to which other devices append at any time; the meaning of a
prefix of the log is a map from index MAC to value MAC. The class `Server` is the environment: what arrives,
what is answered and what is lost are inputs of its methods, within what a server that
keeps such a log can do, so a theorem about all inputs is one about all runs. A
cryptographic MAC is represented by the tuple it authenticates. `Processor` and `Sync`
follow the Go methods, and their contracts say when the local store is the replay of a
prefix of the log.

**Connection** (`Connection`, `ConnectionRuns`, `ConnectionLaws`, `ConnectionClient`,
`ConnectionEvents`, `Waiters`, `NodeQueue`, `HandlerRegistry`, `KeepAlive`). The life
cycle is a transition system whose steps are the regions under the socket lock and the changes of flags and
sockets outside of it; theorems are about every run. `ConnectionClient` has the methods
themselves on mutable fields, each proved to be a step. Keepalive's disconnect and its
reset of the flags are two steps, because another goroutine can come in between; a reset
is only taken after such a disconnect.

**Downloads and uploads** (`Media`, `MediaFile`, `FileDownload`, `MediaLaws`, `Upload`).
The form on a file is given as a function of the file's contents and position and as
methods on a file object. The lemmas say exactly when it agrees with the in-memory form
for all sequences of responses, which bytes either of them accepts, and that what was
uploaded is what is downloaded.

**.env editor and accounts** (`EnvText`, `EnvLines`, `EnvFile`, `Accounts`), **backup
walk** (`BackupWalk`, `BackupCollect`), **quantiles** (`Quantiles`) and **presence**
(`Presence`).

Where the code does not meet what one would expect, the exact condition is proved:

- An own patch that repeats an index is refused by every synced client
  (`OwnPatchAcceptedIff`). Its hash is that of the contents only if what the lookup of
  the encoder misses is zero modulo 2^16 in every word (`HashIsOfContentsIff`).
- A patch that sets an index twice after its last removal violates a primary key after
  the version row has been written, because the three statements of `storeMACs` are not
  in one transaction (`StoredPatch`). On such a torn store a patch that sets the index
  again is refused unless the lost value has only zero words (`TornStoreRefuses`, and
  `BehindApplies` for all patches); a full sync repairs it (`FetchAppState`).
- A failed fetch can leave mutations that were stored and are never handed on for events:
  exactly if a snapshot or patch before a refused one was accepted, if the refused one
  violated the key, or if an answer that moved the version was stored whole and its
  contacts were not (`FetchAppState`, `StoppedBehind`, `SkippedForGood`). The events of
  earlier answers are lost too, because a failure returns none.
- One call of `sendAppState` can have its patch accepted twice: exactly if the answer to
  the first frame was cut off although the server had taken it, and the frame of the
  conflict retry was taken too (`FramesOfCall`, and the run `SentTwice`).
- The mass-contact path agrees with dispatch only under the condition of
  `FastPathRefinesDispatch`: it writes removed contacts (`RemovedContactDiffers`) and
  reorders those without a JID (`EmptyJidDiffers`).
- A socket that the peer closes before its callback is installed is never reported
  (`EarlyIsNeverReported`, `ReportIsComing`).
- The keepalive clears the flags after its disconnect without the lock, and so can take
  back what was expected of a newer socket (`ExpectationIsTakenBack`).
- After a stream error 515 a report that comes before the restart starts a reconnect of
  its own, and one that comes after the Disconnect of the restart starts none
  (`ReconnectAfterStreamError`, `NoReconnectAfterDisconnect`).
- The restart after a stream error 515 connects once: if that fails, nothing tries again
  (`Restart`). A connect failure that asks for a new token panics if no function to
  refresh it is set (`HandleConnectFailure`).
- The file download reports success after five retryable failures, keeps a stale tail
  without a checksum, and compares a plaintext hash of any length where the in-memory
  form only compares one of 32 bytes (`CheckedRetriesAgreeIff`,
  `UncheckedRetriesAgreeIff`, `CheckedDownloadsAgreeIff`). On a ciphertext of partial
  blocks the in-memory form panics (`PartialBlockPanics`).
- Deleting account 1 also deletes account 10 (`DeleteTakes`), and one written as 01 stays
  (`StaysListed`).
- The comment of `_walk_dynamic` exempts its root from the check for `.git`; the code
  exempts only the workspace itself, and the model follows the code (`RootIsNotExempt`).

## Model

| member | source | states |
|---|---|---|
| `LtHash.SubtractThenAddInPlace` | evolution-go/whatsmeow-lib/appstate/lthash/lthash.go:34-58 | in place on the array, every 16-bit word ends as its old value minus all words of the subtracted MACs plus all of the added ones, modulo 2^16 |
| `AppStateLog.SearchBackIsReplay` | evolution-go/whatsmeow-lib/appstate/decode.go:322-335 | the backward search through the earlier mutations of a patch and then the store finds exactly the value that replaying those mutations would leave for the index |
| `AppStateLog.HashFollowsReplay` | evolution-go/whatsmeow-lib/appstate/hash.go:39-65 | subtracting the values found by that search and adding the SET values changes every word sum by exactly the change of the sum over the current contents |
| `AppStateLog.HashIsOfContents` | evolution-go/whatsmeow-lib/appstate/hash.go:39-65 | the hash after a batch is that of the contents after it: always with the lookup of the validator, with those of the encoder and of snapshots if no index repeats |
| `AppStateLog.HashIsOfContentsIff` | evolution-go/whatsmeow-lib/appstate/hash.go:39-65 | with any lookup, and a store that may be behind, it is so if and only if in every word the values it removes sum to what the values that replay removes sum to, modulo 2^16 |
| `AppStateLog.LookupsAgree` | evolution-go/whatsmeow-lib/appstate/encode.go:312-314 | without repeated indexes the store-only lookup of the encoder removes the same values as the lookup of the validator |
| `AppStateLog.RepeatedIndexBreaksEncodedHash` | evolution-go/whatsmeow-lib/appstate/encode.go:312-314 | setting one index twice in an empty store is encoded with the hash of the contents if and only if all words of the first value are zero |
| `AppStateStore.BatchIsReplay` | evolution-go/whatsmeow-lib/appstate/decode.go:121-135 | deleting all collected removals first and inserting all collected additions after equals replaying the mutations one by one |
| `AppStateStore.RepeatsIffSetTwice` | evolution-go/whatsmeow-lib/appstate/decode.go:228-242 | the inserted batch violates the primary key if and only if the patch sets some index twice after its last removal |
| `AppStateStore.AppStateStore.GetMac` | evolution-go/whatsmeow-lib/store/sqlstore/store.go:592-598 | the row with the highest version is the value in the merged view of all rows |
| `AppStateStore.AppStateStore.PutMacs` | evolution-go/whatsmeow-lib/store/sqlstore/store.go:535-570 | all or nothing: the rows of the batch are inserted, or none if one of them collides with another or with a stored row |
| `Processor.Processor.UpdateHash` | evolution-go/whatsmeow-lib/appstate/hash.go:39-65 | the loop computes the hash transition of the specification under each of the three lookups |
| `Processor.Processor.DecodeMutations` | evolution-go/whatsmeow-lib/appstate/decode.go:191-226 | succeeds exactly if every mutation has a known key and is intact, and then yields the batch of the specification; otherwise nothing but an error |
| `Processor.StoredPatch` | evolution-go/whatsmeow-lib/appstate/decode.go:228-242 | storing the next patch of the log keeps the store the replay of the log, or, exactly if an index is set twice, leaves a version row that is ahead of the MAC rows |
| `Processor.Processor.ApplyPatch` | evolution-go/whatsmeow-lib/appstate/decode.go:380-405 | whatever the store holds, a patch is applied if and only if its checks pass against the version row and the contents of the table; then both move on, after a key violation only the row, and otherwise nothing changes |
| `Processor.AppliedInSync` | evolution-go/whatsmeow-lib/appstate/decode.go:380-405 | a synced client applies the next patch if and only if both MACs authenticate the true state, all mutations are readable and no index is set twice; it is in sync afterwards, or torn after a key violation |
| `Processor.Processor.ApplyPatches` | evolution-go/whatsmeow-lib/appstate/decode.go:380-405 | whatever the store holds, the loop applies the patches up to the first that does not pass against what the ones before it left, and the store shows what they leave |
| `Processor.Processor.DecodeSnapshot` | evolution-go/whatsmeow-lib/appstate/decode.go:257-310 | a snapshot on the empty store is accepted if and only if its MAC authenticates the contents it lists; the store is then in sync at its version, otherwise unchanged |
| `Processor.Processor.DecodePatches` | evolution-go/whatsmeow-lib/appstate/decode.go:357-406 | a faithful answer is applied if and only if its snapshot and every patch are accepted, and then all its mutations are returned in order; on failure the store has everything before the first refused part and nothing behind it, except after a primary key violation, and the error is that of the first check that fails |
| `Processor.StoppedBehind` | evolution-go/whatsmeow-lib/appstate/decode.go:357-406 | a refused answer has moved the store if and only if it brought a snapshot or patch before the refused one, or the refused one violated the primary key |
| `Processor.TornIsBehind` | evolution-go/whatsmeow-lib/appstate/decode.go:228-242 | a torn store differs from the log only on the indexes whose new values were not inserted |
| `Processor.BehindApplies` | evolution-go/whatsmeow-lib/appstate/decode.go:380-405 | over a stretch of correctly sealed patches, a store that is behind applies them if and only if a synced one would and each finds in the table all that it has to remove from the hash; what they touch is right again, and once that is all that was stale the store shows what a synced one does |
| `Processor.NothingStaleTouched` | evolution-go/whatsmeow-lib/appstate/decode.go:322-335 | a patch that touches no stale index finds all that it has to remove |
| `Processor.TornStoreRefuses` | evolution-go/whatsmeow-lib/appstate/decode.go:380-392 | the input: after a first patch that sets an index twice, the second patch, which sets it again, is refused unless the lost value has only zero words |
| `Processor.Processor.EncodePatch` | evolution-go/whatsmeow-lib/appstate/encode.go:263-338 | builds the one patch for the next version whose mutations set what was asked for, in order, with the value MACs that the random IVs lead to, and whose MACs authenticate the hash the encoder computed |
| `Processor.OwnPatchAcceptedIff` | evolution-go/whatsmeow-lib/appstate/encode.go:263-338 | appended to the log it was encoded against, an own patch is applied by every synced client with the key if and only if it repeats no index |
| `Sync.DeliveredReplays` | evolution-go/whatsmeow-lib/appstate.go:73-90 | the mutations of one answer, snapshot or patches, take the replay at the requested version to the replay at the last version of the answer |
| `Sync.SyncClient.FetchRound` | evolution-go/whatsmeow-lib/appstate.go:73-90 | one round trip: an unrequested snapshot is refused, the check for a snapshot on a non-empty state never fires, and the round goes through if and only if its answer can be applied and its contacts stored; log, version and device are then those of the next point of the fetch |
| `Sync.SyncClient.FetchLoop` | evolution-go/whatsmeow-lib/appstate.go:64-97 | goes through if and only if every round up to a last one does, and then ends with the store at the last version of the log; on every path the device and what was handed on are those of the rounds that went through, and their number is bounded by progress plus stalled answers |
| `Sync.SyncClient.FetchAppState` | evolution-go/whatsmeow-lib/appstate.go:42-97 | succeeds if and only if nothing is to do or all rounds go through, and then version and contents are the replay of the whole log; a full sync also does this on a torn store; only in a full sync of the critical collection without events are contacts inserted in bulk, and then it fails for them exactly at the first answer that can be applied, names a contact and cannot be stored; in every other case the device has dispatched all that was handed on; a failed request is reported exactly if the next one has no answer; a failure returns no events, and for every failure there are stored mutations that are never handed on if and only if part of a refused answer was stored or the contacts of a stored one were not |
| `Sync.SkippedForGood` | evolution-go/whatsmeow-lib/appstate.go:42-97 | a later ordinary fetch hands on exactly the mutations behind what the failed one had stored |
| `Sync.DispatchedInOrder` | evolution-go/whatsmeow-lib/appstate.go:170-197 | without the bulk insert the device after a fetch is the one after dispatching all mutations of its answers in order |
| `Sync.SyncClient.SendIQ` | evolution-go/whatsmeow-lib/request.go:167-262 | an info query sends its frame once or, after an interruption, twice, with exactly the outcome of the choices of server and connection; of the two at most one is accepted |
| `Sync.FramesOfCall` | evolution-go/whatsmeow-lib/appstate.go:558-577 | the frames of one call, whatever the server and other devices do: at most four, and accepted twice if and only if the first one was taken with its answer cut off and the frame of the conflict retry was taken too |
| `Sync.SentTwice` | evolution-go/whatsmeow-lib/appstate.go:558-577 | for any client that is up to date and any distinct settings, a run of one call in which the server takes the patch twice, with its frames |
| `Sync.SentAndFetched` | evolution-go/whatsmeow-lib/appstate.go:499-589 | for any client that is up to date and any distinct settings, a run of one call that succeeds with the position behind the log |
| `Sync.SyncClient.SendAppState` | evolution-go/whatsmeow-lib/appstate.go:499-589 | against other writers at any time: it succeeds if and only if there is a valid version and a known key, the last query was accepted and answered, and the fetch from the version and log of that query goes through; then the result is the position of the patch, the store is the replay of the whole log, and the device has dispatched every mutation since the saved version once and in order; a refused or lost last query is reported as such; the frames are those of a call |
| `Sync.SyncClient.RetryAfterConflict` | evolution-go/whatsmeow-lib/appstate.go:558-577 | the answer 409 is applied to the store and the device, and the patch is encoded again and sent without a further retry |
| `ContactSync.BulkName` | evolution-go/whatsmeow-lib/store/sqlstore/store.go:698-727 | the name that the bulk insert leaves for a JID is that of its first or its last entry, by the rule of the helper that removes duplicates |
| `ContactSync.DispatchedName` | evolution-go/whatsmeow-lib/appstate.go:218-280 | the name that one-by-one dispatch leaves for a JID is that of its last contact mutation that was set, for every list of mutations |
| `ContactSync.FastPathRefinesDispatch` | evolution-go/whatsmeow-lib/appstate.go:170-280 | for every list of mutations bulk insertion and dispatch of the rest leaves the same names, chat settings and push name as dispatching everything in order, if and only if for every JID the kept entry, set or removed, gives the name of the last one that was set, where one without a JID is applied after all entries, to the empty JID |
| `ContactSync.PlainContactsAgreeIff` | evolution-go/whatsmeow-lib/appstate.go:170-280 | if all contacts are set and name a JID, they agree if and only if for every JID the kept entry has the name of the last one, which is always so if last entries are kept |
| `ContactSync.EmptyJidDiffers` | evolution-go/whatsmeow-lib/appstate.go:199-216 | a contact without a JID stays in the rest and overwrites the name that a later entry for the empty JID has set |
| `ContactSync.RemovedContactDiffers` | evolution-go/whatsmeow-lib/appstate.go:199-216 | a removed contact with a new name is written by the bulk insert and skipped by dispatch, so the two differ |
| `ContactSync.DeviceStore.FilterContacts` | evolution-go/whatsmeow-lib/appstate.go:199-216 | the filter on the shared backing array keeps exactly the other mutations in order and yields exactly the contact entries of what it read before overwriting it |
| `ContactSync.DeviceStore.CollectEvents` | evolution-go/whatsmeow-lib/appstate.go:170-197 | the store effects are those of the bulk path or of dispatch in sequence; it fails, and changes nothing, exactly if there are contacts to insert in bulk and the transaction fails |
| `DispatchLaws.LastPinDecides` | evolution-go/whatsmeow-lib/appstate.go:263-268 | after dispatch a chat is pinned as the last pin mutation that was set for it says |
| `DispatchLaws.LastArchiveDecides` | evolution-go/whatsmeow-lib/appstate.go:269-274 | and archived as the last archive mutation says |
| `DispatchLaws.LastMuteDecides` | evolution-go/whatsmeow-lib/appstate.go:249-262 | and muted until the second of the milliseconds of the last mute mutation, for ever if they are negative, or not at all |
| `DispatchLaws.LastContactDecides` | evolution-go/whatsmeow-lib/appstate.go:275-280 | and has first and full name of the last contact mutation |
| `DispatchLaws.LastPushNameDecides` | evolution-go/whatsmeow-lib/appstate.go:347-359 | the push name is that of the last push name mutation |
| `DispatchLaws.OthersStay` | evolution-go/whatsmeow-lib/appstate.go:218-280 | nothing of a chat is changed by mutations of other kinds, for other chats, or that remove |
| `DispatchLaws.KeptIsFirstOrLast` | evolution-go/whatsmeow-lib/appstate.go:199-216 | the entry that the bulk insert keeps carries the names of the last contact mutation that names the chat, or of the first, by the rule |
| `KeyRequests.GrantsAreSpaced` | evolution-go/whatsmeow-lib/appstate.go:447-462 | over any calls, whatever the clock does, two recorded requests for one key are more than 24 hours apart |
| `KeyRequests.RequestsSpanDays` | evolution-go/whatsmeow-lib/appstate.go:447-462 | k requests for one key span more than 24(k - 1) hours |
| `KeyRequests.GrantedIff` | evolution-go/whatsmeow-lib/appstate.go:447-462 | a missing key is requested if and only if no recorded request for it is 24 hours old or less |
| `KeyRequests.KeyRequester.RequestMissingKeys` | evolution-go/whatsmeow-lib/appstate.go:447-462 | the message of one call holds exactly the missing keys without a recent request, no key twice even if the missing list repeats it |
| `Connection.StepKeeps` | evolution-go/whatsmeow-lib/client.go:480-669 | every step, locked region or change of flags and sockets, keeps the invariant on sockets, callbacks, flags and recorded reconnects |
| `ConnectionRuns.RunKeeps` | evolution-go/whatsmeow-lib/client.go:480-669 | the invariant holds in every state of every interleaving of connects, reconnect loops, disconnects, resets, remote closes, late callbacks and the two steps of the keepalive |
| `ConnectionRuns.OneOpenSocket` | evolution-go/whatsmeow-lib/client.go:505-544 | in every state of every run at most one socket is open, and it is the current one |
| `ConnectionRuns.ClosedForever` | evolution-go/whatsmeow-lib/socket/framesocket.go:62-88 | a socket that was closed stays closed in every later state |
| `ConnectionRuns.SocketsAreSteps` | evolution-go/whatsmeow-lib/client.go:505-544 | socket number id came into being in exactly the step that its connection time names, as the next number |
| `ConnectionRuns.ReconnectsOncePerSocket` | evolution-go/whatsmeow-lib/client.go:550-569 | a reconnect is started at most once for a socket, and only while that socket is the current one |
| `ConnectionRuns.ReconnectsAreUnexpected` | evolution-go/whatsmeow-lib/client.go:550-583 | between the connect of a socket and a reconnect for it nothing dropped it, and if a disconnect was expected, a keepalive reset in between took that back, which belongs to a keepalive disconnect from before the connect |
| `ConnectionRuns.ExpectationIsTakenBack` | evolution-go/whatsmeow-lib/keepalive.go:46-51 | a run in which this happens: the late reset of the keepalive clears the flag for a newer socket, and its close is followed by a reconnect |
| `ConnectionRuns.NoReconnectAfterDisconnect` | evolution-go/whatsmeow-lib/client.go:550-569 | once Disconnect was called no reconnect is started for a socket that was connected before, in whatever order its close, its report and other calls come |
| `ConnectionRuns.ForcedByReset` | evolution-go/whatsmeow-lib/client.go:649-660 | a reconnect after a local close follows a ResetConnection made after that socket was connected; one made with no socket affects no later socket |
| `ConnectionRuns.ReconnectsExactly` | evolution-go/whatsmeow-lib/client.go:550-583 | a callback that takes the lock in any run drops its socket if it is current, and starts a reconnect if and only if it is and, since its connect and the last keepalive reset, no disconnect was expected and the close was remote or ResetConnection was called |
| `ConnectionRuns.ReportIsComing` | evolution-go/whatsmeow-lib/socket/framesocket.go:62-88 | in every state of every run a current socket that is closed has a callback on its way if and only if the peer did not close it before the callback was installed |
| `ConnectionRuns.EarlyIsNeverReported` | evolution-go/whatsmeow-lib/handshake.go:121-126 | a socket closed by the peer in that window never has a callback, and no reconnect is ever started for it |
| `ConnectionRuns.EarlyStaysCurrent` | evolution-go/whatsmeow-lib/handshake.go:121-126 | from any state on, it stays current and dead, and no reconnect is started, until somebody connects or disconnects: ResetConnection does nothing |
| `ConnectionRuns.NoSocketAfterDelete` | evolution-go/whatsmeow-lib/client.go:505-508 | once the device store was deleted no socket is opened and no reconnect loop is started in any later state |
| `ConnectionLaws.StepsObey` | evolution-go/whatsmeow-lib/client.go:480-669 | what every step changes: sockets open only by a dial and close only by the peer, a reset or a disconnect; exactly the closes of the peer and of a reset are reported; a loop begins only and always after a failed first dial, a keepalive reset or an unexpected close with auto-reconnect, and ends only and always after a connect, when a disconnect is expected or when the hook says no; and the two flags |
| `ConnectionClient.Client.StopSocket` | evolution-go/whatsmeow-lib/socket/noisesocket.go:79-89 | stops once, takes the callback out unless allowed, and closes if asked to, as the step function says |
| `ConnectionClient.Client.UnlockedConnect` | evolution-go/whatsmeow-lib/client.go:505-544 | the four outcomes of a connect and the state after each of them, as the step function says |
| `ConnectionClient.Client.ConnectContext` | evolution-go/whatsmeow-lib/client.go:480-496 | connects or starts a background reconnect after a retryable failure, and keeps the invariant |
| `ConnectionClient.Client.OnDisconnectStops` | evolution-go/whatsmeow-lib/client.go:550-551 | the first line of the callback stops the socket outside of the lock and keeps the invariant |
| `ConnectionClient.Client.OnDisconnect` | evolution-go/whatsmeow-lib/client.go:552-569 | the locked part of the callback, with the force flag swapped only for an unexpected disconnect, keeps the invariant |
| `ConnectionClient.Client.AutoReconnectOnce` | evolution-go/whatsmeow-lib/client.go:600-617 | one attempt of a reconnect loop; it goes round again if and only if there is no new socket, none was open, no disconnect is expected and the hook agrees |
| `ConnectionClient.Client.Disconnect` | evolution-go/whatsmeow-lib/client.go:636-645 | marks the disconnect as expected and drops the socket without a report, and keeps the invariant |
| `ConnectionClient.Client.ResetConnection` | evolution-go/whatsmeow-lib/client.go:649-660 | forces a reconnect and closes the socket with a report, and keeps the invariant |
| `ConnectionEvents.HandleStreamError` | evolution-go/whatsmeow-lib/connectionevents.go:19-70 | which stream errors make a disconnect expected, delete the store or restart the connection, in the order in which the cases are tried; sockets, reports and loops stay, and the connection invariant is kept |
| `ConnectionEvents.HandleConnectFailure` | evolution-go/whatsmeow-lib/connectionevents.go:102-156 | which failure reasons make a disconnect expected or delete the store; sockets, reports and loops stay, and the connection invariant is kept; it panics exactly if a token has to be refreshed and no function for it is set |
| `ConnectionEvents.Restart` | evolution-go/whatsmeow-lib/connectionevents.go:33-39 | the goroutine for code 515 disconnects and, after whatever others did in between, connects once; if nothing came between and the connect fails, the client has no socket and no reconnect loop was started |
| `ConnectionEvents.CloseIsReported` | evolution-go/whatsmeow-lib/client.go:550-569 | if the peer closes the open current socket and the report is what comes next, it drops the socket and starts a reconnect exactly if the disconnect is not expected |
| `ConnectionEvents.ReconnectAfterStreamError` | evolution-go/whatsmeow-lib/connectionevents.go:19-70 | if the close and its report are what comes next after a stream error, the client reconnects by itself unless the device was removed, the stream replaced or the token not refreshed |
| `ConnectionEvents.StreamErrorInRuns` | evolution-go/whatsmeow-lib/connectionevents.go:19-70 | in every interleaving: the report of the close that follows starts a reconnect if and only if neither the handler nor anybody else, such as the restart after code 515, expected a disconnect and its socket is still current |
| `ConnectionEvents.ReconnectAfterConnectFailure` | evolution-go/whatsmeow-lib/connectionevents.go:102-156 | after a connect failure, the close that follows and its report, it does so exactly for reasons 500 and 503, and for 413 and 414 if the token was refreshed |
| `Waiters.ChannelsAreClosedOnce` | evolution-go/whatsmeow-lib/client.go:413-418 | in every run no wait channel is closed twice, and every waiter sleeps on the current channel or on a closed one |
| `Waiters.CloseWakesAll` | evolution-go/whatsmeow-lib/client.go:413-418 | after closeSocketWaitChan no waiter sleeps on an open channel |
| `Waiters.NoWaiterIsLost` | evolution-go/whatsmeow-lib/client.go:434-454 | if the connection has been up since before the channel was closed, no waiter is stuck from then on, whenever it checked |
| `Waiters.AnswersAreTrue` | evolution-go/whatsmeow-lib/client.go:434-454 | a waiter is told that there is a connection only if it checked while it was up, and that there is none only if it gave up |
| `Waiters.WaitersGoOn` | evolution-go/whatsmeow-lib/client.go:434-454 | what a check, a wake-up and a time-out make of a waiter, and that an answer is final |
| `Waiters.ClosingFirstLosesAWaiter` | evolution-go/whatsmeow-lib/client.go:434-454 | closing the channel before the connection is up can lose a waiter, so the order in handleConnectSuccess matters |
| `NodeQueue.NodesAreConserved` | evolution-go/whatsmeow-lib/client.go:796-870 | in every run the accepted nodes are, as multisets, the handled, queued, spilled and dropped ones; nothing is dropped before the context is cancelled, and the queue never exceeds 2048 |
| `NodeQueue.AcceptedAreReceived` | evolution-go/whatsmeow-lib/client.go:796-829 | the accepted nodes are those of the received frames for handlers, in order |
| `NodeQueue.ReceivedGoesTo` | evolution-go/whatsmeow-lib/client.go:817-829 | a received node goes into the queue, to a goroutine or away exactly by room and cancellation |
| `NodeQueue.StartedInArrivalOrder` | evolution-go/whatsmeow-lib/client.go:817-829 | as long as the queue was never found full, handlers are started in exact arrival order, by however many loops |
| `NodeQueue.HandlersAreAttended` | evolution-go/whatsmeow-lib/client.go:835-870 | if no handler outlived its tenth tick, every running handler has a loop waiting for it, so no more handlers run than loops wait |
| `NodeQueue.LoopGivesUp` | evolution-go/whatsmeow-lib/client.go:845-866 | a loop stops waiting exactly at its tenth tick or when it sees the end of its handler, and has overrun exactly if the handler was still at work |
| `NodeQueue.OneAtATime` | evolution-go/whatsmeow-lib/client.go:835-870 | within one connection a handler is then only started when all earlier ones have ended |
| `NodeQueue.ConnectionsOverlap` | evolution-go/whatsmeow-lib/client.go:835-870 | the loop of an earlier connection can still wait for its handler while the next one starts another |
| `HandlerRegistry.Registry.Grow` | evolution-go/whatsmeow-lib/client.go:752 | a full backing array is replaced by a larger one with the same live handlers |
| `HandlerRegistry.Registry.AddEventHandlerWithSuccessStatus` | evolution-go/whatsmeow-lib/client.go:749-755 | appends the handler under the next id of the counter that all clients share; slots outside of the window stay empty, and the registry is what its calls make of it |
| `HandlerRegistry.Registry.RemoveEventHandler` | evolution-go/whatsmeow-lib/client.go:769-788 | removes the first handler with the id and answers whether there was one; slots outside of the moved window stay empty, and the registry is what its calls make of it |
| `HandlerRegistry.Registry.DispatchEvent` | evolution-go/whatsmeow-lib/client.go:912-927 | calls exactly the shortest prefix that ends in a handler that does not succeed, or all; the answer is true if and only if that handler failed, and false if it panicked |
| `HandlerRegistry.HandlersInOrder` | evolution-go/whatsmeow-lib/client.go:742-794 | after any calls, while all clients have taken fewer than 2^32 ids, the live handlers have distinct ids in the order of registration |
| `HandlerRegistry.LiveAreKept` | evolution-go/whatsmeow-lib/client.go:742-794 | a handler is live if and only if it was added and neither it nor all handlers were removed since |
| `KeepAlive.KeepAliveLoop` | evolution-go/whatsmeow-lib/keepalive.go:30-63 | the loop counts the failures since the last answer and forces a reconnect at the first failure more than 180 s after it |
| `KeepAlive.SilenceBounds` | evolution-go/whatsmeow-lib/keepalive.go:30-87 | k failures in a row take between 20k and less than 40k seconds |
| `KeepAlive.FirstForcedInTime` | evolution-go/whatsmeow-lib/keepalive.go:30-87 | the first forced reconnect comes on failure number 5 to 10 after the last answer and less than 220 s after it |
| `KeepAlive.TenFailuresForce` | evolution-go/whatsmeow-lib/keepalive.go:30-87 | ten failures in a row always force a reconnect |
| `KeepAlive.BoundsAreTight` | evolution-go/whatsmeow-lib/keepalive.go:30-87 | the fifth slow failure can be the first to force one, and the tenth fast one |
| `Media.DownloadWithRetries` | evolution-go/whatsmeow-lib/download.go:335-358 | the loop of five attempts returns the result of the first conclusive one or the last error |
| `Media.CbcOfChunks` | evolution-go/whatsmeow-lib/util/cbcutil/cbc.go:54-105 | decrypting two chunks, the second chained to the last cipher block of the first, equals decrypting them at once |
| `MediaFile.CheckedRetriesAgreeIff` | evolution-go/whatsmeow-lib/download-to-file.go:151-217 | with a checksum the loop on the file ends with the data and MAC of the in-memory loop, or its error, whatever earlier attempts left in the file: if and only if the attempts are not all used up; in that case the file form reports success |
| `MediaFile.UncheckedRetriesAgreeIff` | evolution-go/whatsmeow-lib/download-to-file.go:151-196 | without a checksum the loops agree if and only if some attempt leads to no other and, if it brings the body, neither the file before nor any body cut off or size reserved so far was longer than that body |
| `MediaFile.CheckedDownloadsAgreeIff` | evolution-go/whatsmeow-lib/download-to-file.go:113-149 | with a checksum, if the plaintext hash is not checked or has 32 bytes, the whole downloads agree on data and on failing if and only if a ciphertext that is to be decrypted has whole blocks; with a hash of another length the form on a file always fails and the one in memory does not look at it |
| `MediaFile.PartialBlockPanics` | evolution-go/whatsmeow-lib/util/cbcutil/cbc.go:33-52 | on a body of 17 ciphertext bytes that passes checksum and HMAC the in-memory form panics, and the form on a file returns an error |
| `MediaFile.UnencryptedDownloadsAgreeIff` | evolution-go/whatsmeow-lib/download-to-file.go:113-149 | without key and checksum they agree under the same condition on the responses and the size of the file |
| `MediaFile.KeyWithoutChecksumFails` | evolution-go/whatsmeow-lib/download-to-file.go:113-149 | a media key without a checksum makes both downloads fail |
| `MediaLaws.DeliversIff` | evolution-go/whatsmeow-lib/download.go:289-317 | with a checksum the in-memory form delivers data if and only if the first attempt that leads to no other brings a ciphertext with its ten-byte MAC over iv and ciphertext and the expected checksum, which decrypts to the data, of the expected length and hash |
| `MediaLaws.FileDeliversIff` | evolution-go/whatsmeow-lib/download-to-file.go:113-149 | the form on a file leaves the data if and only if the same body comes and length and hash are as expected, whatever the file held |
| `MediaLaws.ForgedIsRefused` | evolution-go/whatsmeow-lib/download.go:391-417 | a body with another checksum or another MAC is refused with that error |
| `MediaLaws.ForgedIsRefusedOnFile` | evolution-go/whatsmeow-lib/download-to-file.go:198-234 | and so it is by the form on a file |
| `MediaLaws.AuthenticRefusedWith` | evolution-go/whatsmeow-lib/download.go:304-316 | what an authentic body is refused with in memory: too short, padding, length or hash, and the panic on partial blocks |
| `MediaLaws.AuthenticRefusedOnFile` | evolution-go/whatsmeow-lib/download-to-file.go:126-149 | the same on a file, which refuses partial blocks |
| `MediaLaws.UnencryptedDeliversIff` | evolution-go/whatsmeow-lib/download.go:302-304 | without key and checksum the body of that attempt is delivered as it is |
| `Upload.EncryptStream` | evolution-go/whatsmeow-lib/util/cbcutil/cbc.go:161-217 | the upload in chunks of 32 KiB with one chaining state writes the same body and hashes as the upload in memory |
| `Upload.UploadInMemory` | evolution-go/whatsmeow-lib/upload.go:67-94 | the body is the padded plaintext encrypted by blocks, and its MAC |
| `Upload.DecryptsWhatWasEncrypted` | evolution-go/whatsmeow-lib/util/cbcutil/cbc.go:110-158 | the ciphertext of a plaintext decrypts to it and to nothing else |
| `Upload.UploadIsDownloaded` | evolution-go/whatsmeow-lib/upload.go:67-94 | what was uploaded is downloaded again by both forms, however the first attempts fail and whatever was in the file |
| `FileDownload.DownloadToFile` | evolution-go/whatsmeow-lib/download-to-file.go:180-217 | one attempt on the file object, with what it leaves in the file in each of its failures |
| `FileDownload.DownloadWithRetriesToFile` | evolution-go/whatsmeow-lib/download-to-file.go:151-178 | the retry loop on the file object, with the error of the last attempt replaced by the result of the seek |
| `FileDownload.BorderMoves` | evolution-go/whatsmeow-lib/util/cbcutil/cbc.go:77-97 | decrypting the chunk at the border between plaintext and ciphertext in place moves the border behind it |
| `FileDownload.DecryptFile` | evolution-go/whatsmeow-lib/util/cbcutil/cbc.go:54-105 | decryption in place by chunks of 32 KiB leaves the unpadded plaintext of the whole ciphertext, or reports a partial block or bad padding |
| `FileDownload.DownloadAndDecryptToFile` | evolution-go/whatsmeow-lib/download-to-file.go:113-149 | the whole download leaves in the file what the specification says, or its error |
| `EnvText.LinesOfJoined` | evo-nexus/social-auth/env_manager.py:42-45 | whole lines that are written out are read back as the same lines |
| `EnvFile.EnvEditor.ReadEnv` | evo-nexus/social-auth/env_manager.py:12-24 | the loop yields the last value of every key that a line assigns |
| `EnvFile.EnvEditor.SetEnv` | evo-nexus/social-auth/env_manager.py:27-45 | rewrites the file with every line that assigns the key replaced, or the setting appended if there is none |
| `EnvFile.EnvEditor.DeleteEnv` | evo-nexus/social-auth/env_manager.py:48-62 | rewrites the file without the lines that assign the key; a missing file stays missing |
| `EnvFile.SetThenRead` | evo-nexus/social-auth/env_manager.py:12-45 | for newline-free values: setting and reading gives the old variables with the key mapped to the stripped value, if and only if the key is stripped, free of = and newlines and not a comment |
| `EnvFile.OnlyKeysAreRead` | evo-nexus/social-auth/env_manager.py:12-24 | only such keys are ever read from a file |
| `EnvFile.NewlineSetsAnother` | evo-nexus/social-auth/env_manager.py:43-45 | a value with a newline sets a second variable |
| `EnvFile.DeleteThenRead` | evo-nexus/social-auth/env_manager.py:48-62 | deleting and reading gives the old variables without the key, for every key and file |
| `EnvFile.SetAfterSet` | evo-nexus/social-auth/env_manager.py:27-45 | setting twice leaves the same file as setting once to the second value, if and only if the key is a proper one |
| `EnvFile.SetKeepsOthers` | evo-nexus/social-auth/env_manager.py:27-45 | every line that does not assign the key keeps its text and its place, up to a missing final newline |
| `EnvFile.DeleteAfterSet` | evo-nexus/social-auth/env_manager.py:27-62 | deleting after setting leaves the same file as deleting alone, except that a missing file has become an empty one |
| `Accounts.KeysDiffer` | evo-nexus/social-auth/env_manager.py:127-128 | the names of two fields are equal only for the same account and field |
| `Accounts.Registry.GetAccounts` | evo-nexus/social-auth/env_manager.py:131-213 | lists exactly the indices found in the keys, each once in ascending order, with label, non-blank known fields, missing required fields, and whether it is expired or expires within seven days |
| `Accounts.StatusMeans` | evo-nexus/social-auth/env_manager.py:165-203 | disconnected exactly if a required field or all alternatives are missing, and else expired, expiring within seven days or connected by the days that are left |
| `Accounts.AccountReads` | evo-nexus/social-auth/env_manager.py:153-163 | an account reads exactly the keys of its platform and number |
| `Accounts.Registry.NextIndex` | evo-nexus/social-auth/env_manager.py:216-221 | is greater than every index in use, and 1 or one more than an index in use |
| `Accounts.Registry.SaveAccount` | evo-nexus/social-auth/env_manager.py:224-230 | the file is that after all settings in order; if platform and names can be read back and no value has a line break, reading it gives the old variables with label and non-empty fields stored |
| `Accounts.SaveAddsOne` | evo-nexus/social-auth/env_manager.py:216-230 | saving under an unused index adds exactly one account, with the given label, the non-blank fields and the status they have, and leaves every other account of the platform as it was |
| `Accounts.Registry.DeleteAccount` | evo-nexus/social-auth/env_manager.py:233-239 | removes exactly the variables whose key starts with the prefix |
| `Accounts.DeletedIff` | evo-nexus/social-auth/env_manager.py:233-239 | which variables are left, with the prefix written out |
| `Accounts.DeleteTakes` | evo-nexus/social-auth/env_manager.py:233-239 | deleting account i removes a variable of account j if and only if the digits of j start with the digits of i |
| `Accounts.DeleteLeaves` | evo-nexus/social-auth/env_manager.py:233-239 | every account of the platform whose digits do not start with those of the deleted one is untouched |
| `Accounts.StaysListed` | evo-nexus/social-auth/env_manager.py:141-146 | an account is still listed after it was deleted if and only if its number is not 0 and some variable of it has the number written with a leading zero |
| `Accounts.OtherPlatformsStay` | evo-nexus/social-auth/env_manager.py:224-239 | saving and deleting accounts of one platform changes no variable, no listing and no account of another |
| `BackupWalk.WalkDynamic` | evo-nexus/backup.py:134-161 | the pruned loop over pending directories yields the files in the order of a recursive top-down walk |
| `BackupWalk.WalkMembers` | evo-nexus/backup.py:134-161 | it takes exactly the files with a name and suffix that are not excluded, no excluded directory below the root and no directory with a .git entry from the root down, the workspace itself not counted |
| `BackupWalk.RepositoryIff` | evo-nexus/backup.py:138-153 | a repository is a directory in which .git is found |
| `BackupWalk.ExcludedFilesAre` | evo-nexus/backup.py:116-132 | which file names are left out, written out |
| `BackupWalk.RootIsNotExempt` | evo-nexus/backup.py:138-153 | a root other than the workspace that has a .git entry yields nothing, against the comment in the code |
| `BackupCollect.CollectFiles` | evo-nexus/backup.py:164-227 | sorted without duplicates, exactly the files of the three walks and the listed files that pass the filters; it fails exactly if git does |
| `BackupCollect.TextNamesPath` | evo-nexus/backup.py:164-227 | the text of a path names exactly its parts, so no two files share one |
| `BackupCollect.NoRepositoryIsCollected` | evo-nexus/backup.py:205-227 | no collected file is excluded, and none in workspace/ lies inside a repository nested at depth two or more, from either strategy |
| `BackupCollect.CollectedIff` | evo-nexus/backup.py:164-227 | exactly which files are collected, with the excluded names, the three directories and the .git entries on the way written out |
| `Quantiles.SortedIsUnique` | evo-flow-community/scripts/bench-segment-queries.ts:223-226 | there is only one sorted arrangement of the samples, so the sort of the runtime gives this one |
| `Quantiles.OrderDoesNotMatter` | evo-flow-community/scripts/bench-segment-queries.ts:223-233 | a quantile does not depend on the order of the samples |
| `Quantiles.PositionIsProduct` | evo-flow-community/scripts/bench-segment-queries.ts:228 | the position that is interpolated is the product of (n-1) and the fraction |
| `Quantiles.QuantileMonotone` | evo-flow-community/scripts/bench-segment-queries.ts:223-233 | a larger fraction never gives a smaller quantile, across interval boundaries |
| `Quantiles.QuantileRank` | evo-flow-community/scripts/bench-segment-queries.ts:223-233 | at least floor((n-1)q) + 1 samples are at or below the q-quantile and at least n - ceil((n-1)q) at or above it |
| `Quantiles.InterpolateBounds` | evo-flow-community/scripts/bench-segment-queries.ts:228-232 | an interpolated value lies between the two samples around it |
| `Quantiles.QuantileIsLinear` | evo-flow-community/scripts/bench-segment-queries.ts:223-233 | between two neighbours of any sorted arrangement the quantile divides their distance as (n-1)q divides that of their places |
| `Quantiles.Summarize` | evo-flow-community/scripts/bench-segment-queries.ts:243-258 | min <= P50 <= P95 <= P99 <= max and min <= mean <= max, with min and max the extremes of the samples |
| `Presence.OnlineStatusTracker.GetPresence` | evo-ai-crm-community/lib/online_status_tracker.rb:13-16 | with a clock that does not go back, the pruned set answers as the complete record of last times would, with a strict comparison |
| `Presence.OnlineStatusTracker.GetAvailableContactIds` | evo-ai-crm-community/lib/online_status_tracker.rb:42-48 | prunes, and still answers as the complete record would, with the boundary included |
| `Presence.OnlineStatusTracker.ConcurrentUsersCount` | evo-ai-crm-community/lib/online_status_tracker.rb:79-83 | prunes, and still counts as the complete record would |
| `Presence.PresentIsListed` | evo-ai-crm-community/lib/online_status_tracker.rb:13-48 | who is present is listed, and who is listed is present unless last seen exactly at the boundary |

## Left out

- Cryptography, protobuf, the binary node codec, HKDF and the block cipher on one block: functions given as parameters, or MACs as the tuples they authenticate.
- Upload: the request to the server, the random media key and its expansion, and the temporary file; the stream is written at its end, as through a writer.
- LtHash: the 128 bytes of a hash are modelled as their 64 words of 16 bits; the little-endian encoding is left out.
- uint64 wrap-around of version numbers, and a mutation with an empty index, on which the Go code panics.
- A mutation for a label edit with an index of one element, on which dispatchAppState panics.
- Sync.SyncClient.FetchAppState: an ordinary fetch on a torn store is described by its patches (Processor.BehindApplies) and not as a call.
- Two synchronisations of one client at the same time: `sendAppState` does not take the lock of `fetchAppState`.
- handleAppStateRecovery, external blobs of patches, and an answer 409 that carries a snapshot.
- Read and write failures of the stores, other than the primary key violation and the failing bulk insert of contacts.
- Events themselves: what dispatchAppState emits, the order of Connected and Disconnected events, and response waiters.
- The helper that removes duplicates in PutAllContactNames is not part of this repository; which entry it keeps is a parameter.
- Connection: the two stores of expectDisconnect and the two reads in onDisconnect are one step each; the waits of reconnect loops and cancellation of their context are left out.
- ConnectionClient.Client.AutoReconnectOnce: one pass through the loop of autoReconnect; the loop itself is any sequence of such passes, with the other steps in between.
- That no connect follows Disconnect: a reconnect loop that is past its wait may still connect, so only the start of loops is stated.
- ConnectionEvents.CloseIsReported: one order of the steps; every order is covered by ConnectionRuns.ReconnectsExactly.
- ConnectionEvents: the events that the handlers emit, and what a successful connect stores and uploads besides the flags.
- NodeQueue: durations and log messages; a tick is a step.
- HandlerRegistry: handlers added at the same time, which may be appended in another order than their ids were given out; that handlers do not change the list they are called from.
- KeepAlive: exact timers, a request that takes no time to be sent, and one connection per loop.
- Downloads: failover between hosts, which does not rewind the file; io.Copy in pieces; failures of the file operations; preallocation is a parameter of each response; the file is positioned at its start when a download begins.
- EnvFile: the file is a decoded text; encoding errors, permissions and writes that are cut off are left out.
- Accounts: digits outside of ASCII in keys, the texts of `detail`, how a time is read from text (a parameter), and names of platforms in lower case.
- Backup: symbolic links, quoting and normalisation of paths in git's output, and changes of the tree during the walk.
- Quantiles: rounding of floating point numbers, formatting, the standard deviation and values that are not numbers.
- Presence: the status hash, expiry of Redis keys, a clock that goes back, and fractions of a second.
- The scheduler, backup retention and restore, configuration loading, routes, schemas and user interfaces.
