# Models of the hub's backend protocols

This project models the stateful Go code of the hub's backend and proves what it promises over
all inputs, all interleavings and whole runs. Each protocol is a value-level state with one
function or relation per atomic step, theorems about every run of those steps, and classes whose
methods perform the same loops and updates as the code and are proved to take exactly those steps.

| Files | What they model |
|---|---|
| `ScanCoalescing`, `CoalescingHistory`, `SyncService` | requests for one key share one directory scan through a leader, a mutex and a channel of ten slots |
| `ScanCache`, `FileScan` | the 3 second cache of directory walks under the 60 second cache of file lists, for one request |
| `FileScanWorld`, `FileScanReplies`, `FileScanEffects` | both caches, the shared flights of `ScanDirectory` and the coalescing together, for any number of requests in any interleaving |
| `ScanStreaming`, `FileDownload` | cutting a file list or a file into messages on the server, and putting it together on the worker |
| `ScheduleModel`, `ScheduleProofs`, `ScheduleEffects`, `ScheduleService` | the reconciler that keeps the cron table in agreement with the schedule store, and the handlers that edit schedules |
| `HtmlSanitizer`, `HtmlTree` | the notification sanitizer, as a function on trees and as rewriting of mutable nodes in place |
| `TemplateVariables`, `TemplateOrder`, `TemplateExactness` | replacing `${category:name}` one variable after another, in map order |
| `TaskHandout` | handing pending tasks to nodes, by queries and saves that can overlap |
| `GrpcBreaker`, `GrpcReconnection`, `GrpcEffects`, `GrpcClient` | circuit breaker, backoff, reconnect queue, and registration of stubs against the current connection |
| `RateWindows`, `NonceStore` | fixed-window limiters and the replay store of the sync endpoints |
| `DependencySync` | the three-way dependency diff and its transaction |
| `Padding`, `Envelope`, `Encryption` | PKCS#7 unpadding, the ciphertext envelope, key rotation and migration |
| `Prelude` | options, time, bytes, sums |

The outside world enters as parameters: what a walk of a directory finds, which store writes,
sends and dials fail, what a connection reports, the time of every step, and the order in which a
map or a query is iterated (every order is allowed). Faults are chosen freely, so a theorem
without a hypothesis about them holds whatever fails.

## Findings

Some natural readings of the code turn out to hold only under a condition. For each the project
states the condition, proves where it is exact, and gives the inputs or runs where the reading fails.

- A denied request does not mean exactly `limit` admissions in the last window length: the window
  before may have admitted some of them late. `DenialMeansFullWindow` says what a denial does
  mean, and `DenialsExactIffSingle` that the stronger reading holds for a key if and only if its
  limit is 1 or its window a single instant.
- A sync request can be replayed if and only if its timestamp was ahead of the clock when it was
  accepted (`AcceptedAgainIffAhead`): the nonce is remembered for two minutes after that, but the
  timestamp stays fresh for two minutes after its own moment.
- An error-free reconciler pass brings cron table and store into agreement if and only if no
  stored entry id names a live entry that is not its schedule's own (`ErrorFreePassAgreesIffClear`).
  Init establishes this when its writes succeed. Passes, enables, disables and deletes keep it
  whatever fails; creating, replacing or patching a schedule keeps it exactly as
  `CallKeepsSettledIff` says, because the record is written with the entry id that the client
  sent. Once it is broken, only a call that writes that record or removes that entry repairs it
  (`ConfusionIsForGood`); one failed write in Init is enough (`FailedInitWriteConfuses`).
- The order of template variables matters at joints of a template and with values that meet other
  variables' keys. `OrderFreeIffNoJoints` and `SafeValuesIffHarmless` show each of the two
  conditions to be exact over all choices of the other side; among the failing inputs are a stray
  dollar sign in front of a variable, a value that writes another variable, and the value `$`.
- In an outage a gRPC client fails five times and then never connects again by itself, unless the
  handler happens to take its retry more than two minutes after the fifth failure: the retry comes
  after 16 seconds, while the breaker is open, and is dropped, and everything else that could ask
  for a reconnection needs a connection first (`RetryDecides`, `OutageLosesClient`, `RecoversIff`).
  A first connection that fails is never retried (`NeverConnectsIff`). What remains is to replace the
  whole client, as `ResetGrpcClient` does.
- The query and the save of FetchTask can overlap with another fetch, and node reconciliation puts
  assigned tasks back to pending (core/node/service/task_reconciliation_service.go:158 and 527).
  Either way one task is handed out twice, and only so (`TwiceIff`). Two nodes can be given one task
  by overlapping fetches if and only if their queries find the same task (`TwoFetchesIff`), and
  a reset lets even the same node fetch it again (`PutBackHandsOutTwice`). The transaction around
  a fetch does not prevent this, because the calls inside do not use its session; for the same
  reason a commit that fails leaves the task assigned to a node that was not told (`FetchTask`).
- A leader that joins a flight of ScanDirectory may be given a walk older than 3 seconds before
  its request, if the flight had read it and was held up before it ended (`JoinedWalkMayBeOld`).
- Nonces are stored under node key, colon and nonce, so two nodes can collide if a node key contains a
  colon, and only then (`NonceKeysDiffer`, `NonceKeysMeetIff`).
- The 30 second guard of the half-open circuit breaker never changes a decision (`AttemptAllowedIff`),
  and the probe of a connection idle for too long never succeeds (`TestConnection`).
- `core/grpc/client/client.go:992` calls the backoff "1s, 2s, 4s, 8s, max 30s"; the code also
  gives 16 s, and without a recorded failure the shift count is negative (`BackoffIsCappedPower`).

## Model

| member | source | states |
|---|---|---|
| `ScanCoalescing.CoalescingIsSafe` | core/grpc/server/sync_service_server.go:213-260 | in every state of every interleaving of any number of requests: at most one scan per key is in flight, all requests that shared a scan return one reply, with the files and time stamp or else the error that the leader's scan function returned, none reads nil from the closed channel, no leader sends on or closes a closed channel, and no channel holds more than ten values |
| `ScanCoalescing.OneReplyPerRequest` | core/grpc/server/sync_service_server.go:220-228 | a request stays with the scan it joined, and its reply, once given, never changes |
| `ScanCoalescing.NoDeadlock` | core/grpc/server/sync_service_server.go:249-255 | while a request is unanswered some step other than an arrival is possible, however many subscribers there are for ten slots |
| `ScanCoalescing.LockHolderMoves` | core/grpc/server/sync_service_server.go:250-252 | while the mutex is held for a broadcast, the leader can go on or one of its waiters can receive |
| `ScanCoalescing.EveryRequestIsAnswered` | core/grpc/server/sync_service_server.go:213-260 | without further arrivals a run is bounded by a measure of its first state, and where it cannot go on every request present has its answer |
| `ScanCoalescing.RunsAreShort` | core/grpc/server/sync_service_server.go:213-260 | every run of n requests, arrivals included, has at most 4 * n steps, and where no step is left all n requests have their answers |
| `ScanCoalescing.StepDecreasesRemaining` | core/grpc/server/sync_service_server.go:249-255 | every step that is not an arrival comes exactly one step closer to the end |
| `ScanCoalescing.RemainingNonNegative` | core/grpc/server/sync_service_server.go:250-252 | no channel ever holds more values than there are requests waiting for them |
| `ScanCoalescing.ClosedReadNeverHappens` | core/grpc/server/sync_service_server.go:227-254 | a closed channel is never found empty by a waiter |
| `ScanCoalescing.StepKeepsInv` | core/grpc/server/sync_service_server.go:213-260 | every step keeps the invariant: waiters of a scan are the sends still owed plus the values in its channel, all of them the leader's result |
| `ScanCoalescing.InvIsSafe` | core/grpc/server/sync_service_server.go:213-260 | the invariant implies the four safety properties |
| `SyncService.SyncServiceServer.EnterScan` | core/grpc/server/sync_service_server.go:217-239 | the first critical section performs the Enter move: it joins the running scan of the key or publishes a new one |
| `SyncService.SyncServiceServer.StartScan` | core/grpc/server/sync_service_server.go:232-239 | a new scan state replaces whatever the map held for the key, and older states are untouched |
| `SyncService.SyncServiceServer.SendResult` | core/grpc/server/sync_service_server.go:250-252 | one send appends the result to the channel of exactly the given scan |
| `SyncService.SyncServiceServer.FinishScan` | core/grpc/server/sync_service_server.go:253-255 | the end of the broadcast forgets the key and closes the channel, and changes nothing else |
| `SyncService.SyncServiceServer.Receive` | core/grpc/server/sync_service_server.go:227-228 | a receive takes the oldest value, or nil from a closed empty channel |
| `ScanCache.DirectoryScanner.ScanDirectory` | core/utils/file.go:206-234 | the result is an object of its own, not shared with the cache, holding a walk of that directory installed at most 3 s before it was read; it fails exactly when there is no live entry and the walk fails |
| `ScanCache.DirectoryScanner.Flight` | core/utils/file.go:211-223 | the shared part looks again, walks on a miss, caches exactly that walk for 3 s and hands out a copy |
| `ScanCache.DirectoryScanner.TakeCopy` | core/utils/file.go:224-233 | every call that shares a flight, its own or one it joined, gets an object of its own with that flight's walk |
| `ScanCache.DirectoryScanner.LookUp` | core/utils/file.go:207-209 | a hit exactly while the entry has not expired, answered with a copy |
| `ScanCache.DirectoryScanner.SetCached` | core/utils/file.go:300-308 | replaces the entry of this directory only, with an expiry 3 s ahead |
| `ScanCache.CallerMutates` | core/utils/file.go:310-317 | no change a caller makes to a returned map changes what the cache answers |
| `FileScan.FileScanServer.StreamFileScan` | core/grpc/server/sync_service_server.go:61-93 | nothing for an unauthorized request; for one with a live cached list, or whose path resolves to a directory with a live walk or one that succeeds, exactly the chunks of the whole list of a walk of that directory, installed at most 63 s before the request plus the conversion time of a cached list, up to the first send that fails; otherwise one error. Whatever part arrives, a list the worker accepts is that whole walk |
| `FileScanReplies.RepliesAreRecent` | core/grpc/server/sync_service_server.go:73-82 | in every interleaving of requests, flights, cache look-ups and other callers of ScanDirectory: each request that shares a scan and returns without an error, leader or waiter, has the list of a walk of its own directory, put into the cache at most 3 s before the leader's request, or before the start of a flight that the leader found under way and joined; the leader came no later than the request itself |
| `FileScanReplies.HitsAreRecent` | core/grpc/server/sync_service_server.go:262-277 | in every such run, a request served from the cache of lists gets a walk of its own directory at most 63 s old plus the time between reading the walk and stamping the list |
| `FileScanReplies.WorkersGetWholeWalks` | core/task/handler/runner_sync_grpc.go:59-113 | so, for cached replies, leaders and waiters alike, a list that the worker accepts from any part of the stream rebuilds the whole of one such walk |
| `FileScanReplies.JoinedWalkMayBeOld` | core/utils/file.go:211-223 | the exception is real: for any delay there is a run in which a leader joins a flight and is given a walk put into the cache that long before its request |
| `FileScanEffects.ServedIffStored` | core/grpc/server/sync_service_server.go:262-277 | in every run, a request is served from the cache of lists if and only if the list stored last for its key is at most 60 s old, and then it gets that list |
| `FileScanEffects.ReadIffWalked` | core/utils/file.go:206-223 | in every run, a leader or a flight that looks for a walk reads the one found last in that directory if it is at most 3 s old, and goes on without one otherwise |
| `FileScanEffects.OneFlightPerDirectory` | core/utils/file.go:211 | no directory is ever walked twice at the same time |
| `FileScanEffects.LeaderGoesOn` | core/grpc/server/sync_service_server.go:108-143 | a leader takes the walk its flight has read, lists all its files, stamps, stores and returns that list, and returns it without an error |
| `FileScanEffects.ErrorsHaveCauses` | core/grpc/server/sync_service_server.go:96-112 | in every run, a request, leader or waiter, returns with an error only if its path does not resolve or a walk of its directory failed |
| `FileScanWorld.EventKeepsInv` | core/grpc/server/sync_service_server.go:96-143 | every event keeps all cached walks and lists, flights under way, and results of scans backed by walks of the right directory with the times stated |
| `CoalescingHistory.ScanHistory` | core/grpc/server/sync_service_server.go:232-243 | every scan was started by its leader's request for the same key, and what it returned, it returned after that |
| `CoalescingHistory.RequestHistory` | core/grpc/server/sync_service_server.go:217-229 | a request shares the scan that was current for its key when it entered |
| `FileScan.FileScanServer.GetScan` | core/grpc/server/sync_service_server.go:73-82 | served from the cache within 60 s of its timestamp, else from a scan, either way the list of such a walk; it fails exactly when there is no such list and the path does not resolve or has neither a live walk nor one that succeeds |
| `FileScan.FileScanServer.GetCachedScan` | core/grpc/server/sync_service_server.go:262-277 | a hit exactly within the TTL, and then the list of a walk of this spider's path not older than 63 s plus conversion |
| `FileScan.FileScanServer.PerformScan` | core/grpc/server/sync_service_server.go:96-143 | succeeds exactly when the path resolves and its directory has a live walk or one that succeeds; caches a success under the request's key with the time of its completion, leaves the cache alone on a failure, and lists a walk installed at most 3 s before the scan was asked for |
| `FileScan.FileScanServer.Store` | core/grpc/server/sync_service_server.go:135-138 | only the entry of this request's key is replaced |
| `FileScan.FileScanServer.Convert` | core/grpc/server/sync_service_server.go:114-127 | the list has every file of the map exactly once, in any order, with times cut to seconds |
| `FileScan.CacheKeyIsInjective` | core/grpc/server/sync_service_server.go:68 | authorized requests with the same cache key are for the same spider and path |
| `FileScan.WorkerGetsTheWalk` | core/task/handler/runner_sync_grpc.go:59-113 | every list the worker can accept from a stream rebuilds the walk |
| `FileScan.NothingToAccept` | core/grpc/server/sync_service_server.go:83-89 | from a failed request the worker accepts no list at all |
| `ScanStreaming.StreamCachedResult` | core/grpc/server/sync_service_server.go:146-170 | sends exactly the chunks of the list, or stops before the first send that fails |
| `ScanStreaming.ChunksAreTheDelivery` | core/grpc/server/sync_service_server.go:152-163 | the chunks are the only sequence that concatenates to the list with full pieces but the last, none empty, the total in each and the completion flag on the last alone |
| `ScanStreaming.ChunkCount` | core/grpc/server/sync_service_server.go:152-156 | there are ceil(n / size) chunks, none for the empty list |
| `ScanStreaming.Int32` | core/grpc/server/sync_service_server.go:161 | the total is the number of files modulo 2^32, as a signed 32-bit value |
| `ScanStreaming.ListArrivesWholeOrNotAtAll` | core/task/handler/runner_sync_grpc.go:69-113 | whatever prefix arrives and however the stream ends, the worker has the whole list or reports an error |
| `ScanStreaming.ReceiveFileList` | core/task/handler/runner_sync_grpc.go:66-113 | the receiving loop accepts a list exactly when reading the messages does, and builds its map by path |
| `ScanStreaming.AddFiles` | core/task/handler/runner_sync_grpc.go:93-106 | a later entry for a path replaces an earlier one |
| `ScanStreaming.CollectRebuilds` | core/task/handler/runner_sync_grpc.go:93-106 | from any listing of a walk the worker rebuilds exactly that walk, times in whole seconds |
| `ScanStreaming.OnlyTheMessageDescribes` | core/grpc/server/sync_service_server.go:115-127 | a file's message carries each of its fields, and its modification time cut down to the second |
| `FileDownload.StreamFileDownload` | core/grpc/server/sync_service_server.go:280-353 | nothing for an unauthorized request or a bad path; else exactly the pieces read and one final message, up to the first send that fails |
| `FileDownload.SendOneRead` | core/grpc/server/sync_service_server.go:322-352 | data that comes together with an error or the end is sent before the final message |
| `FileDownload.PiecesDeliver` | core/grpc/server/sync_service_server.go:322-352 | the messages of a download hold exactly the data read, none over 64 KB, with the size of the file in each and the completion flag on the last alone, which carries an error exactly when reading did not reach the end |
| `FileDownload.DownloadFile` | core/task/handler/runner_sync_grpc.go:217-247 | success only with exactly the content of the messages in the file, and always when they give one and no write fails |
| `FileDownload.FileArrivesWholeOrNotAtAll` | core/task/handler/runner_sync_grpc.go:217-247 | the worker reports success if and only if reading reached the end of the file and all messages arrived, and then it has exactly the file's content |
| `ScheduleProofs.ReconcilerConverges` | core/schedule/service.go:218-260 | from an empty cron table over arbitrary stale ids, after an Init whose writes succeed and any run of passes, edits and failures in which no edit leaves a client's foreign entry id behind, the next error-free pass ends in agreement and the pass after it changes nothing |
| `ScheduleProofs.ErrorFreePassAgreesIffClear` | core/schedule/service.go:226-259 | an error-free pass ends in agreement if and only if no enabled schedule's stored id named an entry of another schedule |
| `ScheduleProofs.AgreementIsStable` | core/schedule/service.go:226-259 | a pass that starts in agreement changes nothing at all |
| `ScheduleProofs.AgreementIsBijection` | core/schedule/service.go:277-283 | in agreement the stored entry ids are a bijection between the enabled schedules and the live entries |
| `ScheduleProofs.PassRemovesExactlyTheUnreferenced` | core/schedule/service.go:254-259 | whatever writes fail, an entry live at the start survives a pass if and only if a fetched schedule refers to it, and then untouched |
| `ScheduleProofs.PassBoundsEntries` | core/schedule/service.go:263-275 | whatever writes fail, a pass over n schedules leaves at most 3 * n live entries, orphans of retries included |
| `ScheduleProofs.VisitAllShape` | core/schedule/service.go:236-252 | the visits remove no entry and add at most three fresh ones per missing schedule |
| `ScheduleProofs.RetryShape` | core/schedule/service.go:263-275 | retrying adds at most one entry per attempt, all for this schedule |
| `ScheduleProofs.InitSettles` | core/schedule/service.go:63-81 | an Init without write errors leaves enabled exactly the schedules that parse, with ids of this process, although disabling an invalid one may remove another's entry |
| `ScheduleEffects.InitAgrees` | core/schedule/service.go:63-81 | if all enabled schedules parse and the writes succeed, Init ends in agreement at once |
| `ScheduleEffects.EnableDoes` | core/schedule/service.go:104-122 | enabling succeeds exactly when the expression parses and the write succeeds; the stored record is then enabled under a fresh entry that runs it, and no other record or entry has changed; a failed write leaves the records alone and one entry behind |
| `ScheduleEffects.DisableDoes` | core/schedule/service.go:124-144 | disabling succeeds exactly when the write does; the stored record is then disabled and names no entry, the entry it named is gone, and nothing else has changed; on failure nothing has |
| `ScheduleEffects.RetryEnablesIff` | core/schedule/service.go:263-275 | retrying enables a schedule that parses if and only if one of that many next writes succeeds, and otherwise changes no record |
| `ScheduleEffects.VisitEnables` | core/schedule/service.go:236-248 | one success among the next three writes is enough for a missing schedule that parses to run after its visit |
| `ScheduleEffects.PassTouchesOnlyMissing` | core/schedule/service.go:236-259 | whatever fails, a pass changes only records of enabled schedules missing from the cron table, and those only by giving them a fresh live entry of their own |
| `ScheduleEffects.PostDoes` | core/controllers/schedule.go:80-102 | creating answers without error exactly when the id is new, the insert succeeds and, for an enabled one, the enabling does; the schedule then stands as asked and, if enabled, runs under a fresh entry |
| `ScheduleEffects.PutDoes` | core/controllers/schedule.go:109-140 | replacing a stored schedule without error leaves it enabled and running under a fresh entry, or disabled with the entry named by the client gone |
| `ScheduleEffects.DeleteDoes` | core/controllers/base.go:239-252 | deleting removes that record alone and leaves the cron table to the next pass |
| `ScheduleProofs.CallKeepsSettledIff` | core/controllers/schedule.go:80-140 | every pass, enable, disable, create, replace, patch and delete, whatever fails, keeps all stored ids in order if and only if it leaves no enabled record behind whose client-supplied entry id names a live entry not its own or was never handed out |
| `ScheduleProofs.PutKeepsSettledIff` | core/controllers/schedule.go:109-140 | the same for a replace: it breaks the order exactly when the record is written, enabled, not enabled anew because its expression is invalid or the second write fails, and brings such an id |
| `ScheduleProofs.PostKeepsSettledIff` | core/controllers/schedule.go:80-102 | the same for a create |
| `ScheduleProofs.ConfusionIsForGood` | core/schedule/service.go:236-252 | once an enabled schedule's stored id names a live entry that is not its own, no pass in any world brings agreement, nor does any other call until one writes that record or removes that entry |
| `ScheduleProofs.ConfusionStays` | core/schedule/service.go:236-252 | a pass counts such a schedule as found, so it neither enables it anew nor drops the entry |
| `ScheduleProofs.FailedInitWriteConfuses` | core/schedule/service.go:76-79 | one failed write in Init can leave a stale id naming another schedule's entry, and then there is no agreement until a call writes that record or removes that entry |
| `ScheduleService.Service.Init` | core/schedule/service.go:44-85 | Init over some order of the enabled schedules, in one loop over the service's fields |
| `ScheduleService.Service.Update` | core/schedule/service.go:218-260 | one pass: fetch, mark or add with retries, drop what was not found; a failed fetch changes nothing |
| `ScheduleService.Service.Enable` | core/schedule/service.go:104-122 | adds a fresh entry before the write, so a failed write leaves an orphan; an invalid expression changes nothing |
| `ScheduleService.Service.Disable` | core/schedule/service.go:124-144 | removes the old entry only after the record was written |
| `ScheduleService.Service.EnableWithRetry` | core/schedule/service.go:263-275 | stops at the first success, and fails after the given number of attempts |
| `ScheduleService.Service.Fetch` | core/schedule/service.go:285-294 | every enabled schedule once, as stored |
| `ScheduleService.Service.RemoveNotFound` | core/schedule/service.go:254-259 | removes exactly the entries not marked as found |
| `ScheduleService.ScheduleController.PostSchedule` | core/controllers/schedule.go:80-102 | inserts what the client sent, then enables it if it says so |
| `ScheduleService.ScheduleController.PutScheduleById` | core/controllers/schedule.go:109-140 | replaces the record with what the client sent, then enables or disables it; a mismatched id changes nothing |
| `ScheduleService.ScheduleController.PostScheduleEnableDisable` | core/controllers/schedule.go:156-178 | enables or disables the schedule as it is stored |
| `HtmlTree.SanitizeNode` | core/notification/service.go:532-556 | the loop over a changing child list ends, and turns the tree in place into its sanitized form |
| `HtmlTree.SanitizeDocument` | core/notification/service.go:513-518 | whatever the document was, the tree in place then has only the twenty allowed elements, no attributes but href on links, each with a safe address, and all the text outside the ten blocked elements, in order |
| `HtmlTree.Build` | core/notification/service.go:513-518 | for every tree there are nodes in the state that the sanitizer starts from |
| `HtmlTree.SanitizeChild` | core/notification/service.go:533-555 | one iteration replaces one child by its sanitized form among untouched siblings |
| `HtmlTree.Unwrap` | core/notification/service.go:540-546 | the children take the place of their parent, in order |
| `HtmlTree.HtmlNode.SanitizeAttributes` | core/notification/service.go:558-572 | keeps exactly the safe href attributes of links, in order |
| `HtmlSanitizer.SanitizeIsTokenFilter` | core/notification/service.go:532-556 | sanitizing the tree is a one-pass filter of its serialized token stream, with a depth counter for blocked elements |
| `HtmlSanitizer.SanitizeKeepsText` | core/notification/service.go:532-556 | the text of the result is, in order, exactly the text outside the ten blocked elements |
| `HtmlSanitizer.SanitizedIsClean` | core/notification/service.go:532-556 | every remaining element is an allowed tag with only permitted attributes |
| `HtmlSanitizer.FixpointIffClean` | core/notification/service.go:532-556 | exactly the clean trees are left as they are |
| `HtmlSanitizer.SanitizeIdempotent` | core/notification/service.go:532-556 | sanitizing twice is sanitizing once |
| `HtmlSanitizer.SanitizeConcat` | core/notification/service.go:533-555 | siblings are sanitized independently of each other |
| `HtmlSanitizer.SanitizedAttrPermitted` | core/notification/service.go:558-577 | exactly the safe href attributes of links survive, each without its name space |
| `HtmlSanitizer.IsSafeIffSafeAddress` | core/notification/service.go:574-577 | an address is let through if and only if, after white space, it starts with https://, http:// or mailto: letter by letter, case aside |
| `HtmlSanitizer.LinksKeepSafeAddresses` | core/notification/service.go:564-570 | a link keeps exactly its href attributes with a safe address |
| `HtmlSanitizer.SanitizedIsDecent` | core/notification/service.go:532-577 | the result of sanitizing any tree has only allowed elements, no attributes but link targets, and only safe addresses |
| `TemplateOrder.GetContentWithVariables` | core/notification/service.go:173-376 | for some order of the variables found, the content is the template with one replaced after the other; under the two conditions it is the simultaneous substitution |
| `TemplateOrder.OrderDoesNotMatter` | core/notification/service.go:173-376 | for a template without joints, and values that do not meet the keys of the template's other variables, every order gives one simultaneous left-to-right substitution |
| `TemplateExactness.OrderFreeIffNoJoints` | core/notification/service.go:173-376 | every order gives the substitution for all values without dollar signs if and only if nowhere outside its variables does the template have a proper start of one variable's key right before another variable |
| `TemplateExactness.SafeValuesIffHarmless` | core/notification/service.go:173-376 | every order gives the substitution for all templates without joints if and only if no value has a dollar sign from which it contains another variable's key or ends in a start of one, unless that variable has no value or its own text as its value |
| `TemplateExactness.InterferenceShowsOrder` | core/notification/service.go:173-376 | what the two ways give for any value that contains, or is completed to, another variable's key |
| `TemplateExactness.ValueWithVariableShowsOrder` | core/notification/service.go:173-376 | so with a value that writes another variable |
| `TemplateExactness.DollarValueShowsOrder` | core/notification/service.go:173-376 | so with a value that is a single dollar sign |
| `TemplateExactness.JointBreaksOrder` | core/notification/service.go:173-376 | at any joint some order and some values without dollar signs give something else than the substitution |
| `TemplateExactness.StrayDollarIsJoint` | core/notification/service.go:401-405 | a dollar sign in front of a variable is a joint with every other one |
| `TemplateOrder.LoopSubstitutes` | core/notification/service.go:173-376 | after each iteration exactly the variables treated so far are substituted |
| `TemplateOrder.ReplaceIsOneMore` | core/notification/service.go:366-370 | replacing all occurrences of one more variable touches neither values inserted before nor other variables |
| `TemplateVariables.KeysDiffer` | core/entity/notification_variable.go:10-12 | no written variable is a prefix of another one's text |
| `TemplateVariables.WrittenIsFound` | core/notification/service.go:401-405 | a written variable is found where it stands, whatever follows it |
| `TemplateVariables.MatchesIff` | core/notification/service.go:400-405 | a text starts with a variable if and only if it starts with `${`, a word, a colon, a word and `}` |
| `TemplateVariables.SubstituteWritten` | core/notification/service.go:173-376 | in the simultaneous substitution a variable gives its value, or stays if it has none, |
| `TemplateVariables.SubstituteText` | core/notification/service.go:173-376 | and text without dollar signs stays |
| `TemplateVariables.ParseTemplateVariables` | core/notification/service.go:400-428 | exactly the variables of the template, each once, in some order |
| `TaskHandout.FetchesDrainQueues` | core/grpc/server/task_service_server.go:208-265 | a node fetching again and again gets its pinned tasks by (priority, id), then the unpinned ones, then nil, and no task appears or disappears |
| `TaskHandout.TaskTwiceNeedsOverlapOrPutBack` | core/grpc/server/task_service_server.go:228-262 | in every interleaving of queries and saves by any nodes with any other work: if a task is handed out a second time, its query came before the first save, or other work has put the task back to pending in between |
| `TaskHandout.TwiceIff` | core/grpc/server/task_service_server.go:228-262 | in every such history, a task is handed out twice if and only if, at some save of it, another fetch holds it too and keeps it up to its own save, or other work puts it back to pending and a later fetch takes it and is saved |
| `TaskHandout.TwiceIffOverlap` | core/grpc/server/task_service_server.go:228-262 | so without a put-back of the task, if and only if two fetches of it overlap |
| `TaskHandout.TwoFetchesIff` | core/grpc/server/task_service_server.go:228-252 | from any store, some interleaving of one fetch by each of two nodes hands out one task twice if and only if the queries of both find the same task in that store |
| `TaskHandout.OverlapHandsOutTwice` | core/grpc/server/task_service_server.go:228-252 | whenever two fetches find the same task, each may query before the other saves, and both nodes are given it |
| `TaskHandout.PutBackHandsOutTwice` | core/node/service/task_reconciliation_service.go:150-163 | whenever a node has fetched a task, a reset to pending lets it fetch the task again |
| `TaskHandout.FetchIsReadThenSave` | core/grpc/server/task_service_server.go:230-252 | a query followed at once by its save is an undisturbed fetch |
| `TaskHandout.FetchesIffServes` | core/grpc/server/task_service_server.go:221-252 | an undisturbed fetch is exactly that: it gives the next task to the node, field by field, or nothing if no task is pending for it |
| `TaskHandout.SelectsIffNext` | core/grpc/server/task_service_server.go:221-249 | the two sorted queries find exactly the next task: pending, the node's own before those of nobody, least priority value first, least id among equals |
| `TaskHandout.SaveAssigns` | core/grpc/server/task_service_server.go:230-252 | in every history, whatever happens between query and save: a task handed out was read as the next one for its node, pending and pinned to that node or to none; after the save, if it is still stored, its node id is that node's, its status is assigned, its priority and command are those read, and no other task has changed |
| `TaskHandout.TaskServiceServer.FetchTask` | core/grpc/server/task_service_server.go:208-265 | the node's next task, by pinning, priority and id, then has that node's id and the status assigned, and every other task and field is as before, or there is none and nothing changes; or an error, exactly for a missing or unknown node, a session that does not open (core/mongo/transaction.go:13-27), an unreadable query, an unwritable task or a commit that fails, and nothing changes, except that after a failed commit the task stays assigned |
| `TaskHandout.TaskServiceServer.GetFirstWaiting` | core/grpc/server/task_service_server.go:221-233 | the least waiting task by priority and id, if there is one |
| `GrpcReconnection.ClientFailuresBounded` | core/grpc/client/client.go:779-999 | in every run of the client's monitor, getters, health checks and reconnection handler: the failures since the last success within L of the first number at most 5 + floor(L / 120 s), and every stub registered belongs to the current, open connection |
| `GrpcReconnection.AtMostFiveFailures` | core/grpc/client/client.go:792-838 | unless a retry is taken more than 120 s after the failure it is for, there are never more than five failures in a row |
| `GrpcReconnection.RetryDecides` | core/grpc/client/client.go:792-797 | the retry after a failure leads to another attempt if and only if the client is not stopped and there were fewer than five failures or the retry is more than 120 s late; otherwise the client is lost |
| `GrpcReconnection.RecoversIff` | core/grpc/client/client.go:779-838 | a client can get a connection again if and only if it has one, or is not stopped and a retry is queued or the handler is asleep |
| `GrpcReconnection.LostForever` | core/grpc/client/client.go:335-403 | a client without connection, queued retry and sleeping handler never has a connection and never hands out a stub again: every trigger asks for a connection first |
| `GrpcReconnection.NeverConnectsIff` | core/grpc/client/client.go:767-777 | no run from the start ever has a connection or a registration if and only if the first connection attempt fails |
| `GrpcReconnection.OutageLosesClient` | core/grpc/client/client.go:792-838 | in every run from a connected state in which the first five attempts fail, whatever the monitor, getters and health checks do in between and as long as no retry is late: the failures are the turns of the handler up to five, and the client is lost exactly from the sixth turn on, even if the network is back by then |
| `GrpcReconnection.PromptOutageLosesClient` | core/grpc/client/client.go:816-838 | one such outage in full: a handler that takes each retry at once fails five times and is not lost yet, and its next turn loses the client |
| `GrpcReconnection.StepKeepsInv` | core/grpc/client/client.go:779-869 | every step keeps the breaker equal to the record of failures, no connection after a failure, and no retry before the backoff is over |
| `GrpcReconnection.StepKeepsStubs` | core/grpc/client/client.go:266-282 | every step keeps registration tied to the current, open connection, and closes all earlier ones |
| `GrpcReconnection.ConnectKeepsStubs` | core/grpc/client/client.go:1001-1039 | a connection attempt, successful or not, leaves every earlier connection closed and registration only on the new one |
| `GrpcEffects.QueuedIff` | core/grpc/client/client.go:335-403 | after any step a reconnection is queued if and only if one was and has not been taken, the handler's sleep is over, or the connection was found bad, idle for over two minutes or unhealthy by a client that is not stopped and has fewer than five failures or the last over 120 s ago |
| `GrpcEffects.RegisteredIff` | core/grpc/client/client.go:354-390 | exactly when a client is registered after a step |
| `GrpcEffects.BadConnectionReconnects` | core/grpc/client/client.go:359-375 | a connection newly reported failing or shut down leaves the client unregistered with a reconnection queued, unless the client is stopped or the breaker open |
| `GrpcEffects.ReadyConnectionRegisters` | core/grpc/client/client.go:383-389 | a connection newly reported ready leaves the client registered on it, with every stub built from it and no failures on record |
| `GrpcEffects.TickSees` | core/grpc/client/client.go:335-390 | a tick remembers the state reported and since when a connection that was ready has been idle |
| `GrpcEffects.AttemptDoes` | core/grpc/client/client.go:801-868 | an attempt closes the earlier connection; success registers on a new one and clears the failures, failure is recorded and slept on for 1, 2, 4, 8, 16 and then 30 seconds |
| `GrpcEffects.RefusedRequestIsDropped` | core/grpc/client/client.go:792-797 | a request taken while the client is stopped or the breaker open is dropped without any other effect |
| `GrpcEffects.HealthChecksIff` | core/grpc/client/client.go:1103-1127 | health checks stop exactly when a server turns out not to offer them, until the next registration |
| `GrpcEffects.StopDoes` | core/grpc/client/client.go:205-248 | a stopped client stays stopped and unregistered with its connection closed, and only stopping stops it |
| `GrpcBreaker.FailuresBounded` | core/grpc/client/client.go:929-999 | any sequence of failures that the breaker let through, with the backoffs between them, number at most 5 + floor(L / 120 s) within L of the first |
| `GrpcBreaker.FailuresAreSpaced` | core/grpc/client/client.go:816-838 | failure number i comes at least 1 + 2 + 4 + 8 s and then more than 120 s each after the first |
| `GrpcBreaker.AttemptAllowedIff` | core/grpc/client/client.go:949-965 | an attempt is let through if and only if there were fewer than five failures or the last is over 120 s ago; the half-open guard is redundant |
| `GrpcBreaker.BackoffIsCappedPower` | core/grpc/client/client.go:987-999 | after f >= 1 failures the backoff is min(2^(f-1), 30) seconds |
| `GrpcClient.Client.Register` | core/grpc/client/client.go:266-282 | registered, with every stub built from the current connection |
| `GrpcClient.Client.DoConnect` | core/grpc/client/client.go:1001-1039 | makes one connection attempt as specified; registered exactly on success, on the new connection |
| `GrpcClient.Client.CheckAndHandleStateChange` | core/grpc/client/client.go:335-390 | takes the monitor's step, the branch for an idle connection included |
| `GrpcClient.Client.PerformHealthCheck` | core/grpc/client/client.go:1103-1127 | takes the health check's step on a ready connection and none otherwise |
| `GrpcClient.Client.HandleReconnection` | core/grpc/client/client.go:786-838 | takes the handler's step: a request the breaker refuses is dropped, a failure is recorded with the time of its retry |
| `GrpcClient.Client.GetClient` | core/grpc/client/client.go:727-734 | a stub is handed out only while registered, and it is the one for the service asked for, on the current, open connection |
| `GrpcClient.Client.GetClientWithTimeout` | core/grpc/client/client.go:572-587 | the same, and a broken connection queues a reconnection |
| `GrpcClient.Client.Stop` | core/grpc/client/client.go:205-248 | takes the stop step: unregistered at once, the connection closed, nothing twice |
| `RateWindows.AdmissionsBounded` | core/middlewares/rate_limit.go:28-42 | in every run, an interval of length L sees at most limit * (ceil(L / W) + 1) admissions of a key |
| `RateWindows.DenialMeansFullWindow` | core/middlewares/rate_limit.go:36-38 | a denial finds exactly limit admissions since the window started, less than W ago |
| `RateWindows.DenialsExactIffSingle` | core/middlewares/rate_limit.go:36-38 | every denial means exactly limit admissions within the last W if and only if the limit is 1 or W a single instant |
| `RateWindows.CounterCounts` | core/middlewares/rate_limit.go:39-40 | the counter of a window is the number of admissions since its start |
| `RateWindows.WindowStaysSane` | core/middlewares/rate_limit.go:32-40 | a window starts with one of the requests and is never over-full |
| `RateWindows.KeyHasOneLimit` | core/middlewares/rate_limit.go:46-73 | requests with one limiter key are of one address and meet one limit |
| `RateWindows.LimitsByPath` | core/middlewares/rate_limit.go:62-73 | 10 requests a minute for paths with /login or /refresh anywhere, else 120 under /sync/, 10 under /export/ and 300 for all others |
| `RateWindows.SameKeyIff` | core/middlewares/rate_limit.go:46-73 | two requests share a window exactly when they come from one address and are of one of these four kinds |
| `RateWindows.RateLimiter.AllowRequest` | core/middlewares/rate_limit.go:28-42 | performs the step that the theorems are about; a denied request leaves no trace |
| `RateWindows.SyncNodeRates.AllowSyncNodeRequest` | core/middlewares/auth.go:164-178 | the separate copy of the limiter, over its own map, takes the same step as the general one with a limit of 120 a minute |
| `NonceStore.StoreIsExact` | core/middlewares/auth.go:140-155 | after any run the store holds exactly the keys last accepted within two minutes, each with its own expiry |
| `NonceStore.AcceptedIffNotRecent` | core/middlewares/auth.go:150-154 | an attempt is accepted if and only if its key was not accepted within the last two minutes |
| `NonceStore.AcceptancesApart` | core/middlewares/auth.go:150-154 | two acceptances of a key are more than two minutes apart |
| `NonceStore.AcceptedOnce` | core/middlewares/auth.go:94-104 | a request whose timestamp is not ahead of its first acceptance is accepted at most once |
| `NonceStore.AcceptedAgainIffAhead` | core/middlewares/auth.go:94-104 | whatever came before, a request that has just been accepted can be accepted again later if and only if its timestamp is ahead of the clock |
| `NonceStore.NonceKeysDiffer` | core/middlewares/auth.go:142 | different nonces of one node never share a key, nor do nonces of different nodes whose keys contain no colon |
| `NonceStore.NonceKeysMeetIff` | core/middlewares/auth.go:142 | nonces of different nodes share a key exactly when one node's key is the other's with a colon and a text x, and the other's nonce starts with x and a colon |
| `NonceStore.SyncNonces.ConsumeSyncNonce` | core/middlewares/auth.go:140-162 | purges in place, then consumes a new nonce; an empty nonce changes nothing |
| `NonceStore.SyncNonces.AdmitSyncRequest` | core/middlewares/auth.go:94-104 | a request that is incomplete, whose timestamp is no number or more than 120 s off either way is refused before the nonce store is touched; any other is accepted exactly when its nonce is not remembered, and is then remembered for 120 s while all that has run out is forgotten |
| `DependencySync.SyncAchieves` | core/grpc/server/dependency_service_server.go:45-149 | for distinct names, each requested dependency ends up stored once, installed at its version; unrequested records survive unless not installed and older than seven days; everything outside the scope is untouched |
| `DependencySync.RepeatedSyncIsIdle` | core/grpc/server/dependency_service_server.go:70-112 | repeating the sync at the same instant computes empty insert, update and delete lists |
| `DependencySync.EveryRecord` | core/grpc/server/dependency_service_server.go:115-146 | every record afterwards is an old one left alone because nothing asked for a change, one refreshed under its id, or a new one for a name that was not stored |
| `DependencySync.NamesStayDistinct` | core/grpc/server/dependency_service_server.go:90-99 | no name is stored twice afterwards |
| `DependencySync.RequestStoredOnce` | core/grpc/server/dependency_service_server.go:70-100 | finds the record of a request, under its old id where it had one |
| `DependencySync.DeletesExactly` | core/grpc/server/dependency_service_server.go:102-112 | the ids deleted are exactly those of unrequested, expired records |
| `DependencySync.InsertsExactly` | core/grpc/server/dependency_service_server.go:90-93 | the inserts are exactly the requested names not known, without repetition |
| `DependencySync.UpdatesExactly` | core/grpc/server/dependency_service_server.go:94-99 | the updates are exactly the known names with another version or status, under their ids |
| `DependencySync.DependencyServiceServer.SyncDependencies` | core/grpc/server/dependency_service_server.go:45-149 | one request performs the sync; an unknown node, a failed query and a failed transaction change nothing |
| `DependencySync.DependencyServiceServer.GetMany` | core/grpc/server/dependency_service_server.go:53-56 | every record of the node and language once |
| `DependencySync.DependencyServiceServer.IndexByName` | core/grpc/server/dependency_service_server.go:65-68 | of two records with one name the later one is known |
| `DependencySync.DependencyServiceServer.Compare` | core/grpc/server/dependency_service_server.go:71-100 | the loop computes the inserts, updates and names specified |
| `DependencySync.DependencyServiceServer.FindExpired` | core/grpc/server/dependency_service_server.go:103-112 | the loop computes the deletes specified |
| `DependencySync.DependencyServiceServer.Commit` | core/grpc/server/dependency_service_server.go:115-146 | deletes, then inserts under new ids, then updates |
| `Padding.UnpadInvertsPad` | core/utils/encrypt.go:233-247 | for block sizes 1 to 255, unpadPKCS7 returns a message if and only if its input is that message padded as in section 6.3 of RFC 5652 |
| `Padding.UnpadPKCS7` | core/utils/encrypt.go:233-247 | the loop accepts exactly what the guards say together |
| `Envelope.ParseInvertsPrint` | core/utils/encrypt.go:174-178 | the parser accepts exactly the printed form of a non-empty, colon-free key id and payload |
| `Envelope.JoinThenSplit` | core/utils/encrypt.go:123-128 | colon-free parts are what their join splits into |
| `Envelope.SplitThenJoin` | core/utils/encrypt.go:175 | splitting gives colon-free parts that join to the whole |
| `Encryption.LoadEncryptionKeyset` | core/utils/encrypt.go:44-74 | succeeds exactly when the active key exists and every key id is non-empty and colon-free with a key of 32 bytes, and then holds the decoded keys |
| `Encryption.LoadsIff` | core/utils/encrypt.go:44-83 | told key by key: each text decodes to its key, without padding or else with it |
| `Encryption.EncryptedIs` | core/utils/encrypt.go:102-129 | an encrypted value is agcm:v1: with the active key id and the nonce given, sealed with that key and with data that name the key id |
| `Encryption.DecryptsAfterRotation` | core/utils/encrypt.go:102-129 | an encrypted value decrypts under every later key set that retains its key, whichever is active, and under none without its key id |
| `Encryption.ReencryptIsIdempotent` | core/utils/encrypt.go:142-155 | reencrypting keeps the plaintext, yields a current value, reports a migration exactly for legacy values, and done again, now or under a later key set that retains the key, changes nothing |
| `Encryption.CurrentValuesSurviveRotation` | core/utils/encrypt.go:174-203 | a readable current value reads the same under every key set that retains its key, and is not migrated there |
| `Encryption.LegacyValuesMigrate` | core/utils/encrypt.go:142-231 | a value of the old program migrates if and only if its key is configured and the key set usable, and the new value holds the old plaintext without needing that key |

## Left out

- Generated protobuf and gRPC code, routing, other controllers, the MCP client, logging, metrics and notifications about results: wrappers without state of their own.
- MongoDB, cron, Docker, git and the file system: the store is a map, cron an allocator of increasing ids, and what a walk or read finds is a parameter. The transaction of a dependency sync is atomic here; in the code its session is not passed on to the calls inside.
- Panics, data races on fields read without a lock, and clocks that go backwards.
- ScanCoalescing.NoDeadlock: assumes that the scan function returns; a panic in it would leave its waiters blocked.
- ScanCache.DirectoryScanner.ScanDirectory: one call that joins no other flight; joining one is `TakeCopy`, and calls that interleave are runs of FileScanWorld.
- FileScan.FileScanServer.StreamFileScan: follows one request with nobody else scanning the same key or directory; requests that share scans, flights and caches are the subject of FileScanReplies. Resolving a path is a fixed function, so links that change while the server runs are not covered, and the node and credential checks are one boolean.
- FileScan.FileScanServer.GetScan: like `StreamFileScan`, for one request at a time.
- FileScan.FileScanServer.PerformScan: its ScanDirectory joins no flight of another caller; scans that do are runs of FileScanWorld.
- FileScanReplies.RepliesAreRecent: the age of a walk counts from when it was put into the cache, not from when each file was read during the walk; how long a waiter waits for its turn is up to the scheduler.
- ScanStreaming.ListArrivesWholeOrNotAtAll: a stream ends regularly only after the handler succeeded, as gRPC guarantees; what the worker then deletes and downloads is not modelled.
- The text of error messages, except that it is not empty where the worker depends on that.
- ScheduleProofs.ReconcilerConverges: passes and calls are atomic steps, so an edit between the fetch of a pass and its writes is not covered, and a batch of patches or deletes is a sequence of single ones. Fields of a schedule other than id, expression, enabled flag and entry id are left out, and so is the job body apart from removing a disabled schedule's entry (core/schedule/service.go:317-326).
- HtmlTree.SanitizeNode: the children of a node are a sequence of node references rather than a chain of sibling pointers, so relinking a node is an update of that sequence.
- Parsing and rendering HTML: the sanitizer is modelled from tree to tree.
- TemplateOrder.GetContentWithVariables: the value of a variable is an abstract function of category and name, or none where the code leaves the text alone; the tables and formats of core/notification/service.go:173-376 and its dereference of a missing alert are not modelled.
- TaskHandout.TaskServiceServer.FetchTask: one fetch that nothing disturbs; fetches that overlap are histories of `Read` and `Save` events. Task streams, subscriptions and their clean-up are not modelled.
- GrpcReconnection.ClientFailuresBounded: a connection attempt is one step, so the monitor does not see a connection that is still being set up, and the waits after a success are a single `Settling` phase.
- GrpcClient.Client.GetClient: without the wait for a registration that comes later.
- GrpcClient.Client.Stop: without the wait for goroutines, and with a close that succeeds; replacing a client by a new one (core/grpc/client/client.go:1159-1179) starts a new run.
- NonceStore.SyncNonces.AdmitSyncRequest: one reading of the clock for both checks; the database and password checks that follow are left out.
- DependencySync.SyncAchieves: names are distinct in the store and in the request, and the clock is read once; creation times are left out. Under Go before 1.22 all map entries would share one loop variable.
- Encryption.DecryptsAfterRotation: ciphers, Base64, hexadecimal and JSON are functions that are assumed to undo each other and keep to their alphabets (`LawfulIsPossible` shows the assumptions consistent); nothing is said about cryptographic strength or tampering, and failures of the random source and of cipher construction are left out.
