# klura runtime: a Dafny model

This project models the parts of the klura runtime where the order of events decides what is right,
and proves what holds over every order: of calls, retries, crashes, timers, socket and browser
events, page reads and chunks. Each source file that works by changing state is a class or a loop
here, proved against a specification function; the claims over whole runs are lemmas about that function.

`dafny verify dfyconfig.toml` checks everything.

## Parts

- **Audit** (`AckTypes`, `TokenStore`, `Audit`, `AuditCall`, `AuditRuns`): the staged, token-gated audit.
  When a call commits, what a dry run tells, what a run of calls over one token store can reach, and how
  soon an honest agent gets through.
- **Network capture** (`CaptureModel`, `CaptureAttribution`, `Capture`): CDP handlers over entries shared by
  three containers, and which redirect hop a Set-Cookie name lands on.
- **Starting runs** (`StartOperation`, `OneRun`, `RunRoutes`, `BoundedMemory`): one run and one answer per operation id
  across retries and crashes, every durable effect being a step of its own.
- **Listings** (`KeysetWalk`, `RunListing`, `RunWalk`, `InstalledListing`, `Base64Url`): cursor pagination
  while the store changes.
- **Following a run** (`Journal`, `FollowItems`, `WaitState`): the change watcher, the item generator and the
  one-shot wait, against writers and notices in any order.
- **Public calls** (`Caller`): retries, fallback, budget, deadline and back-off.
- **Framing** (`Text`, `JsonText`, `StreamFraming`): the NDJSON stream between daemon and client.
- **Build digest** (`BuildDigest`): what is hashed, and that it can be read back.
- **Capability cache** (`StableSort`, `CacheKey`, `CapabilityCache`): the map with expiry against its history.
- **Lifecycles** (`IdleShutdown`, `WebSocketSender`, `LoginInteractions`, `LoginService`): timers and callbacks as events.
- **Input scanning** (`CliArgs`, `ReplIo`): flags against a grammar, lines against callers.

## Where the natural claim fails

Some claims that the code or its comments suggest hold only under a condition. The code is modelled as it
is; a lemma gives an input for which the claim fails, and a theorem says exactly when it holds.

- A commit means "every detector satisfied" (src/audit/index.ts:484-488) if and only if every emitted kind is
  owned by a detector that treats it alike: `AuditCall.StrayKindIsNotBlocked`, `AuditCall.SatisfiedExact`.
- When every hop passes the filter, cookie names stay on their hop exactly when each cookie-bearing event finds
  it: with a status code, no earlier hop of equal status may be without names, and a hop that has names must be
  the latest; without a code it must be the latest. An event that finds another hop does no harm if both have its
  names already: `CaptureAttribution.TwoEqualStatusesMisattribute`, `CaptureAttribution.AttributionExact`.
- A redirect's status is overwritten exactly when the redirecting request is filtered out and another status
  arrives before the next hop: `CaptureAttribution.FilteredHopOverwritesStatus`, `CaptureAttribution.OverwrittenExact`.
- One run per operation holds as long as a reservation is abandoned only with no run under its id and no other
  attempt that can still make it; any other abandonment can lead to two: `OneRun.OverlapCanMakeTwoRuns`,
  `OneRun.OneRunOneAnswer`, `OneRun.CleanExact`.
- The end of a followed run can come without the last items: `FollowItems.EndCanMissAnItem`, `FollowItems.EndExact`.
- An installed package is skipped exactly when the two string orders disagree on it at a page boundary:
  `InstalledListing.CzechPairIsMissed`, `InstalledListing.MissedExact`.
- Reported attempts can fall short of the requests charged: `Caller.KeptResultUnderreports`,
  `Caller.ReportedAttemptsExact`.
- A received answer is lost exactly when its attempt starts to wait for a retry and no attempt follows, whether the
  budget is spent, the deadline is reached or the wait is cancelled: `Caller.ScheduledRetryLosesTheAnswer`,
  `Caller.WaitToTheDeadlineLosesTheAnswer`, `Caller.AnswerReturnedExact`.
- How a stream ends depends on its chunks exactly when it ends at a terminated line over the limit:
  `StreamFraming.OversizeStream`, `StreamFraming.EitherReason`, `StreamFraming.VerdictExact`.
- The writer of the stream allows deeper events than its reader, so committed items more than ten levels deep
  cannot be followed: `StreamFraming.DeepItemsExist`, `StreamFraming.DeepItemIsNotFollowed`,
  `StreamFraming.FollowableExact`, `StreamFraming.WrittenExact`.
- The cache's argument hash is described as one string per argument shape (src/cache/capability-cache.ts:70-78),
  but nested names absent from the top level are dropped, and names that the collation ties stay in insertion
  order: `CacheKey.NestedNamesAreDropped`, `CacheKey.TiedNamesSplit`, `CacheKey.ArgsShareExact`.
- A fresh entry of the cache can be missed if the clock has gone back: `CapabilityCache.ClockMustNotGoBack`,
  `CapabilityCache.GetExact`. Names with colons can reach each other: `CacheKey.ColonsConfuse`, `CacheKey.PrefixReaches`.
- An idle daemon is stuck after a pool edge that nobody reports: `IdleShutdown.SilentEdgeGetsStuck`,
  `IdleShutdown.StuckExact`. The pool reports only the edge of its warm sweeper (src/pool/pool.ts:928-931).
- A frame reported as not sent was sent after all exactly when the socket first opens after the promise has
  settled. The open handler allows that; the `ws` library, which emits no `open` after `close()`, does not:
  `WebSocketSender.LateOpenSends`, `WebSocketSender.NotSentExact`, `WebSocketSender.NotSentMeansNotSent`.
- `closeAll` stops at the first close that throws, and loses exactly what is then still queued:
  `LoginInteractions.ThrowingCloseLeaks`, `LoginInteractions.OwnersExact`. A close that throws after the commit
  keeps the session from its caller: `LoginInteractions.ToldExact`.

## Assumptions

- Hashes are injective and random ids are fresh; both appear as premises or parameters.
- Clocks are integers. Where a claim needs a clock that never goes back, it says so.
- Detectors, classifiers, executors, checks and preflights are arbitrary functions or arbitrary results.
- String collation (`localeCompare`), JSON parsing and digests are parameters, with what they must satisfy as premises:
  that the collation tells instants and run ids apart, and elsewhere only that it is consistent.
- Steps of one process between two awaits are not interrupted by its other callbacks; other processes
  may write to the run store at any point.

## Model

| member | source | states |
|---|---|---|
| `TokenStore.Store.Issue` | src/gate/store.ts:41-59 | a minted token is stored under its kind and hash with its expiry, and nothing else changes |
| `TokenStore.Store.Lookup` | src/gate/store.ts:70-78 | a token is found exactly while it is stored and unexpired; an expired one is dropped on the way |
| `TokenStore.Store.Consume` | src/gate/store.ts:80-82 | the token, and only it, leaves the store |
| `TokenStore.Store.Sweep` | src/gate/store.ts:29-39 | exactly the expired entries leave the store |
| `Audit.Auditor.CheckAcks` | src/audit/index.ts:517-553 | the acknowledgement loop collects the issues and the acknowledged kinds that the specification names, for every order and every repetition |
| `Audit.Auditor.CollectWarnings` | src/audit/index.ts:505-515 | every detector's issues are collected in order, an issue without a kind taking its detector's |
| `Audit.Auditor.CollectBlocking` | src/audit/index.ts:555-566 | what blocks is every warning whose kind's detector requires an acknowledgement that is missing, or never allows one |
| `Audit.Auditor.ProcessFirstCall` | src/audit/index.ts:617-674 | a call without a token commits or mints as the specification says |
| `Audit.Auditor.ProcessTokenCall` | src/audit/index.ts:676-742 | a call that echoes a token commits, re-mints or reports as the specification says, and spends the token only on a real run |
| `Audit.Auditor.Process` | src/audit/index.ts:489-742 | the staged method returns the specified outcome and leaves the specified store, for every payload, input and store |
| `AuditCall.CommitsExactly` | src/audit/index.ts:484-742 | a call commits if and only if its shape is clean or skipped, no warning is left that must be acknowledged or never may be, every acknowledgement is valid, and no classifier is active, or all may be and are answered without a token, or the echoed token is live, of this audit kind and over these slices and every answer is consistent |
| `AuditCall.ClearedExact` | src/audit/index.ts:517-600 | stage 1 lets a call through exactly when no fired kind is blocked and every acknowledgement given for a fired kind is accepted |
| `AuditCall.WellFormedExact` | src/audit/index.ts:522-553 | there is no acknowledgement issue exactly when every entry normalises and each one for a fired kind passes its detector's hook |
| `AuditCall.Stage1Exact` | src/audit/index.ts:505-600 | the loops' blocking list and issue list are empty exactly under the two declarative conditions |
| `AuditCall.ActiveExact` | src/audit/index.ts:602-606 | nothing is active exactly when every classifier's items are empty, and the slices are those of the active ones in order |
| `AuditCall.PassesExact` | src/audit/index.ts:495-600 | stages 0 and 1 are passed exactly when the shape is clean or skipped and the warnings are cleared |
| `AuditCall.FirstCallCommits` | src/audit/index.ts:617-660 | a token-less call commits exactly when every active classifier may be answered at once and every answer is consistent |
| `AuditCall.TokenCallCommits` | src/audit/index.ts:676-742 | a call with a token commits exactly when the token backs it and every answer is consistent |
| `AuditCall.SatisfiedExact` | src/audit/index.ts:484-488 | when some call commits for a payload, every committing call leaves each never-ackable detector silent and every other issue acknowledged if and only if every emitted kind belongs to a detector that treats it alike |
| `AuditCall.StrayKindIsNotBlocked` | src/audit/index.ts:557-560 | without that premise the claim fails: a never-ackable detector that emits under a kind nobody owns does not block |
| `AuditCall.StoreStep` | src/audit/index.ts:617-742 | the one entry a call adds is its own mint and every entry it keeps is unchanged; the one it may drop is the echoed token, when expired or when a real run spent it |
| `AuditCall.EarlyRejectionsTouchNothing` | src/audit/index.ts:495-600 | a rejection for shape or acknowledgements leaves the store as it was and carries no token |
| `AuditCall.DryRunForetells` | src/audit/index.ts:691-742 | on the same store a dry run and the real call give the same result up to the name of the fresh token |
| `AuditCall.DryRunSpendsNothing` | src/audit/index.ts:691-741 | a dry run removes no live token |
| `AuditCall.ScopedEditsKeepTheToken` | src/audit/index.ts:744-758 | an edit that keeps the active set and the fields each active classifier hashes is never reported as a changed payload |
| `AuditCall.WiderModesCommitToo` | src/audit/index.ts:363-370 | what commits without a token under a narrower mode of first-call answers commits under every wider one |
| `AuditRuns.TokenProvenance` | src/gate/store.ts:41-59 | over every run, a stored token was drawn by one earlier event and still holds what that event stored |
| `AuditRuns.GoneForGood` | src/gate/store.ts:80-82 | a token absent after it was drawn never comes back |
| `AuditRuns.SpentTokenIsGone` | src/audit/index.ts:740 | after a real commit on a token the token is never stored again |
| `AuditRuns.NoTokenBacksTwoCommits` | src/audit/index.ts:676-742 | no token backs two real commits of a run, whatever other audits, gates and sweeps do in between |
| `AuditRuns.EveryCommitIsSound` | src/audit/index.ts:484-742 | every commit of every run passed each stage, and one on a token echoes a token that an earlier call of the same audit kind minted over equal slices, unexpired and unspent since |
| `AuditRuns.RejectionTokenIsUsable` | src/audit/index.ts:624-738 | every token a rejection hands out is stored for exactly this payload |
| `AuditRuns.UsableTokenCommits` | src/audit/index.ts:709-742 | a fully answered call that echoes a usable token commits |
| `AuditRuns.AnsweredCallGetsAToken` | src/audit/index.ts:617-738 | a fully answered call commits or is handed a token |
| `AuditRuns.CommitsWithinThreeCalls` | src/audit/index.ts:489-742 | an agent that, after any first call, resends every acknowledgement and answer and echoes the last token commits by the third call |
| `AuditRuns.CommitsOnceHandedAToken` | src/audit/index.ts:676-742 | when the first call already handed out a token, the second call commits |
| `CaptureModel.ContainersAgree` | src/drivers/cdp-network-capture.ts:162-193 | on every event trace the latest entry of a request is the last of its chain, the chains partition the sink in sink order, and every open script record is one distinct element of the ledger |
| `CaptureModel.StepAgrees` | src/drivers/cdp-network-capture.ts:175-367 | every handler keeps the containers in agreement |
| `CaptureModel.PushAgrees` | src/drivers/cdp-network-capture.ts:249-254 | pushing one entry to the sink, the map and its chain keeps them in agreement |
| `CaptureModel.WithoutExact` | src/drivers/cdp-network-capture.ts:359-367 | splicing a failed script out of the ledger removes exactly it and keeps the order |
| `CaptureModel.OpenScriptsExact` | src/drivers/cdp-network-capture.ts:178-325 | on every trace a script has an open record exactly while it is loading: one element of the ledger, under the URL of its last request |
| `CaptureModel.RecordStays` | src/drivers/cdp-network-capture.ts:178-193 | through every redirect the record stays the same one until the script ends |
| `CaptureAttribution.ChainsAreIndependent` | src/drivers/cdp-network-capture.ts:175-310 | a request's chain evolves by its own events alone, whatever the other requests do |
| `CaptureAttribution.HopsAreTheView` | src/drivers/cdp-network-capture.ts:175-310 | the chain in the sink is the one computed from that request's events only |
| `CaptureAttribution.StatusesAreKept` | src/drivers/cdp-network-capture.ts:195-228 | over every trace, the status of a hop that another hop follows never changes again |
| `CaptureAttribution.OverwrittenExact` | src/drivers/cdp-network-capture.ts:195-261 | the status a redirect leaves on a hop is overwritten if and only if the redirecting request was filtered out and a response with another status arrives before the next hop that passes the filter |
| `CaptureAttribution.CookiesGoHomeUnlessShadowed` | src/drivers/cdp-network-capture.ts:284-310 | a cookie-bearing event goes to its own hop exactly when, having a status code, no earlier hop of that status is without names and the hop is without names or the latest, or, having none, the hop is the latest; the first one with a code never goes to a later hop |
| `CaptureAttribution.AttributionExact` | src/drivers/cdp-network-capture.ts:284-310 | when every hop passes the filter, names stay on the hops that set them, before or after the hop's status is known, if and only if every cookie-bearing event finds its own hop in that way, or goes to the latest while both have its names already |
| `CaptureAttribution.DistinctStatusesAttribute` | src/drivers/cdp-network-capture.ts:284-310 | with pairwise distinct statuses, when each cookie-bearing event is its hop's first with a code or its hop is the latest, every entry of the sink holds exactly the names its hop set |
| `CaptureAttribution.TwoEqualStatusesMisattribute` | src/drivers/cdp-network-capture.ts:300-307 | two hops that both answer 302, the second alone setting a cookie: its name lands on the first |
| `CaptureAttribution.FilteredHopOverwritesStatus` | src/drivers/cdp-network-capture.ts:212-261 | when a later hop is filtered out its response overwrites the status of the hop before it |
| `Capture.Recorder.OnRequestWillBeSent` | src/drivers/cdp-network-capture.ts:175-254 | on shared objects, the handler carries out the specified step, seen alike through the sink and both maps |
| `Capture.Recorder.OnResponseReceived` | src/drivers/cdp-network-capture.ts:256-268 | assigning the shared entry carries out the specified step in every container |
| `Capture.Recorder.FindTarget` | src/drivers/cdp-network-capture.ts:300-307 | the entry chosen is the chain's first with this status and no names, else the latest |
| `Capture.Recorder.OnExtraInfo` | src/drivers/cdp-network-capture.ts:284-310 | merging cookie names into the shared entry carries out the specified step |
| `Capture.Recorder.OnLoadingFinished` | src/drivers/cdp-network-capture.ts:312-324 | a finished script's size is recorded in the ledger's own object and its record is closed |
| `Capture.Recorder.OnLoadingFailed` | src/drivers/cdp-network-capture.ts:359-367 | a failed script is spliced out of the ledger |
| `OneRun.OneRunOneAnswer` | src/consumer/daemon-routes.ts:532-610 | over every interleaving with other operations and a crash or error before any durable effect, while each abandonment that removes a reservation finds no run under its id and no other attempt that can still make it, one operation has at most one run and all acceptances ever returned for it are equal and name that run's artifact |
| `OneRun.CleanExact` | src/consumer/daemon-routes.ts:590-597 | after such a trace one more abandonment leaves the operation with at most one run in every such continuation if and only if it meets that condition itself |
| `OneRun.UncleanMakesTwo` | src/consumer/scrape/run-operations.ts:121-138 | after any other abandonment, in any reachable state, some continuation without a further one makes two runs |
| `OneRun.SerialIsClean` | src/consumer/daemon-routes.ts:558-597 | attempts that come one after another, each begun when the one before has ended or died, meet the condition |
| `OneRun.NeverSinklessIsClean` | src/consumer/daemon-routes.ts:585-597 | so do overlapping attempts of which none is turned down for want of a sink |
| `OneRun.NoConflicts` | src/consumer/scrape/run-operations.ts:94-117 | under the same condition recording a result never clashes with the recorded one, and metadata found under the reserved run id is the operation's own |
| `OneRun.OverlapCanMakeTwoRuns` | src/consumer/daemon-routes.ts:590-597 | two overlapping attempts of one operation, one of them abandoning the reservation, make two runs |
| `StartOperation.AdvanceIsLocal` | src/consumer/scrape/run-store.ts:154-173 | one step changes at most its own operation's record and the directory it made, whose metadata is written once |
| `OneRun.SafeKept` | src/consumer/daemon-routes.ts:558-609 | every step but an abandonment outside the condition keeps each run recorded under its operation, and each attempt either on its record's run id or unable to make a run |
| `RunRoutes.FinishIsSteps` | src/consumer/daemon-routes.ts:532-610 | a start that runs to its end undisturbed is a stretch of the single steps, so the claims over traces cover it |
| `RunRoutes.Routes.Start` | src/consumer/daemon-routes.ts:532-610 | the route leaves on disk, and answers, what its steps run to the end give, and registers exactly the run it created |
| `RunRoutes.Routes.CompleteActiveRun` | src/consumer/daemon-routes.ts:872-882 | the run leaves the active set and its result is remembered, never more than 128 of them |
| `RunRoutes.Routes.Wait` | src/consumer/daemon-routes.ts:653-672 | a run is waited for while active, answered from memory exactly while remembered, and looked up otherwise |
| `RunRoutes.LastCompletionsAreKept` | src/consumer/daemon-routes.ts:872-882 | of runs that complete once each, exactly the last 128 are answered from memory |
| `BoundedMemory.KeepsTheLast` | src/consumer/daemon-routes.ts:874-880 | inserting keys once each and dropping the oldest beyond the bound keeps exactly the last ones |
| `BoundedMemory.PutExact` | src/consumer/daemon-routes.ts:875 | setting a key keeps keys distinct and grows the map exactly for a new key |
| `RunListing.SortSorts` | src/consumer/runs.ts:89-110 | sorting lists every run once in the order of (created_at, run_id) |
| `RunListing.CursorRoundTrip` | src/consumer/runs.ts:364-444 | a minted cursor parses to the key of the run it was minted from and is within its byte limit |
| `RunListing.CursorExact` | src/consumer/runs.ts:364-399 | a string parses to a key exactly when it is that key's own minted cursor |
| `RunListing.AfterExact` | src/consumer/runs.ts:112-119 | what remains after a cursor is exactly the runs beyond it, still in order |
| `RunListing.BuildRunPage` | src/consumer/runs.ts:401-434 | the page is the longest prefix within the item limit of which every prefix fits the byte limit; it fails exactly when not even one run fits |
| `RunListing.ListPage` | src/consumer/runs.ts:112-119 | invalid options, invalid cursors and pages are told apart, and a page is a page of the store at that moment |
| `RunListing.PageIsBounded` | src/consumer/runs.ts:401-434 | a page has at most the asked-for items and 20480 encoded bytes, and is empty exactly when nothing remains |
| `Base64Url.RoundTrip` | src/consumer/runs.ts:370-373 | decoding an encoding gives the bytes back |
| `Base64Url.CanonicalExact` | src/consumer/runs.ts:370-373 | a text survives decoding and re-encoding exactly when it is the encoding of some bytes |
| `KeysetWalk.WalkIsExactlyOnce` | src/consumer/runs.ts:112-119 | any walk of linked stretches that ends lists strictly increasing keys and every key present throughout |
| `KeysetWalk.WalkTerminates` | src/consumer/runs.ts:112-119 | a walk has at most one stretch more than there were ever keys |
| `RunWalk.PagesAreAWalk` | src/consumer/runs.ts:112-119 | pages read by following cursors over a changing store form a walk |
| `RunWalk.WalkIsExactlyOnce` | src/consumer/runs.ts:112-119 | following next_cursor to null lists every run present throughout exactly once and in order, whatever runs appear or are discarded between pages |
| `RunWalk.WalkTerminates` | src/consumer/runs.ts:112-119 | following next_cursor ends after at most one page more than there were ever runs |
| `InstalledListing.BuildInstalledPage` | src/consumer/local-listing.ts:205-253 | the page is the longest prefix within the item limit of which every prefix fits the byte limit; it fails exactly when not even one package fits |
| `InstalledListing.BuiltPageIsPage` | src/consumer/local-listing.ts:94-106 | a page built from the sorted remainder is a page of the listing |
| `InstalledListing.AgreementSuffices` | src/consumer/local-listing.ts:94-106 | when the sort order and the continuation order agree on every id ever installed, a finished listing is in order, repeats nothing and misses no package installed throughout, whatever the page sizes |
| `InstalledListing.MissedExact` | src/consumer/local-listing.ts:94-106 | a finished listing of a changing store, under any limits, misses a package installed throughout if and only if at some page boundary the sort places it after the cursor and the continuation before it |
| `InstalledListing.CzechPairIsMissed` | src/consumer/local-listing.ts:98-100 | a collation that sorts ch after h never lists the package ch with one package a page |
| `InstalledListing.WeightedCollationAgrees` | src/consumer/local-listing.ts:98-100 | a collation that weighs characters one by one, hyphen before digits before letters, agrees with code units on package ids |
| `InstalledListing.AgreementExact` | src/consumer/local-listing.ts:98-100 | listing an unchanging store one id a page shows every package if and only if the two orders agree on what is installed |
| `InstalledListing.OppositePairIsSkipped` | src/consumer/local-listing.ts:98-100 | of two ids that the two orders rank oppositely one is never listed |
| `Journal.ReadPage` | src/consumer/scrape/result-reader.ts:73-106 | the visitor loop returns the items after a number, at most the limit, and a continuation exactly when more are committed; a journal is refused exactly when its numbering breaks before the page is complete |
| `Journal.Inspect` | src/consumer/scrape/inspection.ts:55-138 | the lifecycle is that of the frames read, and a journal is refused exactly for a missing first frame or work after a terminal frame |
| `Journal.ItemsAreNumbered` | src/consumer/scrape/result-reader.ts:366-371 | the k-th committed item carries the number k |
| `Journal.Watcher.Next` | src/consumer/runs.ts:259-291 | a caller is left waiting only with no change, failure or abort unseen |
| `Journal.Watcher.OnChange` | src/consumer/runs.ts:248-252 | a change wakes the waiting caller and is then used up, or stays noted for the next one |
| `FollowItems.EmittedIsAPrefix` | src/consumer/runs.ts:189-228 | at every moment of every interleaving the items yielded are those numbered start + 1, start + 2, ... in order, without gap or repeat |
| `FollowItems.NoLostWakeup` | src/consumer/runs.ts:197-224 | a follower blocked with no notice on its way has read and inspected the whole journal, has yielded every wanted item and the run is not over; any notice wakes it |
| `FollowItems.WokenReadsAfresh` | src/consumer/runs.ts:199-209 | the page being yielded is no older than the notice last used up, and what came later is noted or announced |
| `FollowItems.EndExact` | src/consumer/runs.ts:202-222 | the end covers every item committed by the inspection if and only if no wanted item was committed between the last page read and that inspection |
| `FollowItems.TerminalEndIsFinal` | src/consumer/runs.ts:210-222 | a complete terminal end stays complete: nothing is committed after it |
| `FollowItems.EndCanMissAnItem` | src/consumer/runs.ts:205-222 | an item and the terminal frame appended while the consumer holds the last item of a page: the end comes without that item |
| `WaitState.NoLostWakeup` | src/consumer/runs.ts:157-171 | a wait blocked with no notice on its way stands before a journal that has not advanced; any notice wakes it |
| `WaitState.AnswersAreTruthful` | src/consumer/runs.ts:130-187 | an answer says what its snapshot shows, unchanged is answered only after the timeout, and the timeout always draws an answer |
| `Caller.RetryDelayBounds` | src/consumer/call.ts:221-240 | a delay lies between the capped exponential and the larger of the jittered cap and the structural delay |
| `Caller.Call` | src/consumer/call.ts:105-218 | the nested loops terminate, make a legal sequence of attempts that only a deadline, a result or the ends of budget and strategies stop, and return what that sequence concludes |
| `Caller.RunStrategy` | src/consumer/call.ts:128-216 | one strategy runs until it returns, is left, runs out of time or the budget is spent, retries strictly increasing below the policy's count |
| `Caller.BudgetIsConserved` | src/consumer/call.ts:126-217 | charges never exceed the budget and each executor is offered exactly the unspent part, at least one |
| `Caller.ReportedAttemptsExact` | src/consumer/call.ts:186-217 | the attempts reported equal the sum charged if and only if the budget did not run out on a scheduled retry behind a kept result |
| `Caller.RanksIncrease` | src/consumer/call.ts:128-216 | successive attempts strictly increase in (strategy, retry) |
| `Caller.RunsAreBounded` | src/consumer/call.ts:128-216 | there are at most strategies times (1 + max_retries) executor runs |
| `Caller.WaitsFitTheDeadline` | src/consumer/call.ts:171-208 | no retry wait longer than the remaining deadline is started |
| `Caller.FallbackExact` | src/consumer/call.ts:217 | the final transport failure is returned exactly when no attempt left a result, nothing returned and the deadline did not stop the loop |
| `Caller.RetryMayChargeNothing` | src/consumer/call.ts:288-297 | a retried failure can charge nothing, so the budget alone is no termination measure |
| `Caller.AnswerReturnedExact` | src/consumer/call.ts:170-189 | the answer of the last attempt is returned if and only if that attempt did not start to wait for a retry; a wait that is cancelled gives cancelled, one with budget left request_timeout, one with none the last kept result, else the fallback |
| `Caller.ScheduledRetryLosesTheAnswer` | src/consumer/call.ts:171-217 | a retry scheduled with the last of the budget loses the answer it would have returned |
| `Caller.WaitToTheDeadlineLosesTheAnswer` | src/consumer/call.ts:184-186 | with nine of ten requests left, a wait that ends at the deadline loses it too |
| `Caller.KeptResultUnderreports` | src/consumer/call.ts:190-217 | a result kept from an earlier strategy reports fewer attempts than were charged |
| `StreamFraming.ParseStreamLine` | src/consumer/daemon-client.ts:406-418 | an event is returned exactly for a non-empty line within the byte limit that parses within the depth limit |
| `StreamFraming.SplitExact` | src/consumer/daemon-client.ts:72-80 | splitting at newlines is the one way to see a stream as newline-free lines and a rest |
| `StreamFraming.Follow` | src/consumer/daemon-client.ts:70-94 | for every cutting into chunks the events yielded are those of the whole stream, and it ends as the stream does, but for a cut beyond the byte limit inside what ends it, which makes the event too large |
| `StreamFraming.VerdictExact` | src/consumer/daemon-client.ts:76-94 | how the stream ends, including empty, oversize and mid-event endings, is the same for every cutting if and only if it does not end at a terminated line over the limit |
| `StreamFraming.EitherReason` | src/consumer/daemon-client.ts:78-90 | a stream that ends at a terminated line over the limit is turned down for its bytes in one cutting and as too large in another |
| `StreamFraming.OversizeStream` | src/consumer/daemon-client.ts:407-409 | there are such streams: one line one byte over the limit |
| `StreamFraming.EndIs` | src/consumer/daemon-client.ts:406-418 | what ends a stream is the first line that is not good or the rest after the last newline, for every way to see the stream as good lines and something else |
| `StreamFraming.CompleteIsVerdict` | src/consumer/daemon-client.ts:92-94 | a stream ends well exactly when it is nothing but good lines |
| `StreamFraming.TooLargeSpoils` | src/consumer/daemon-client.ts:84-89 | stopping at an oversize partial event agrees with reading on |
| `StreamFraming.WrittenExact` | src/daemon.ts:667-674 | reading what the writer wrote returns its events up to the first over the reader's byte or depth limit, and ends well exactly when there is none |
| `StreamFraming.FollowableExact` | src/consumer/runs.ts:206-210 | the reader takes the event of a committed item exactly when the item is at most ten levels deep and the line is within the byte limit |
| `StreamFraming.DeepItemIsNotFollowed` | src/consumer/daemon-client.ts:411-412 | the event of a deeper item, within the twelve levels a run may commit, is written and stops the reader |
| `StreamFraming.DeepItemsExist` | src/consumer/scrape/data-spool.ts:61 | eleven or twelve nested arrays are such an item |
| `StreamFraming.RoundTrip` | src/daemon.ts:667-674 | events within the reader's limits come back unchanged for every chunking |
| `JsonText.NoNewlineInJson` | src/public/contracts/json.ts:42-77 | the bytes of canonical JSON hold no newline, whatever its strings hold |
| `JsonText.PrintIsInjective` | src/public/contracts/json.ts:42-77 | different values with ordered members have different texts |
| `JsonText.RenderIsInjective` | src/public/contracts/json.ts:12-18 | different JSON values have different canonical texts |
| `Text.Utf8IsInjective` | src/daemon.ts:673 | different texts have different UTF-8 bytes |
| `Text.LessIsTotal` | scripts/write-build-info.js:20-22 | code-unit order on strings is a strict total order |
| `BuildDigest.UniqueSorted` | scripts/write-build-info.js:52-60 | each path once, in path order, with its last entry's file |
| `BuildDigest.DigestEntries` | scripts/write-build-info.js:62-74 | the bytes fed to the hash are the domain and the listing of the tree |
| `BuildDigest.FilesRoundTrip` | scripts/write-build-info.js:65-72 | the hashed bytes decode to exactly the files they were made from |
| `BuildDigest.PreimageExact` | scripts/write-build-info.js:52-74 | two preimages are equal if and only if the domains are equal and both trees hold the same paths with the same contents, names and domains being free of NUL |
| `BuildDigest.CollectionOrderIsFree` | scripts/write-build-info.js:52-60 | any order of collecting entries with distinct paths gives the same preimage |
| `BuildDigest.NulNamesCollide` | scripts/write-build-info.js:68-72 | with a NUL in a name two different files encode alike |
| `StableSort.SortExact` | src/cache/capability-cache.ts:81-84 | two orders of the same names are sorted alike if and only if the names that the collation ties come in the same order |
| `CacheKey.ArgsShareExact` | src/cache/capability-cache.ts:79-86 | two argument objects share a hash if and only if both are absent or empty, or both keep the same values under the allowlist of their own top-level names and list the names that tie in the same order |
| `CacheKey.ProjectExact` | src/cache/capability-cache.ts:81-84 | the allowlist keeps a value whole exactly when every nested name is one of the top-level names |
| `CacheKey.FlatArgsExact` | src/cache/capability-cache.ts:70-86 | arguments whose nested names all appear at the top level, flat ones above all, share a hash exactly when they are equal and list the names that tie in the same order |
| `CacheKey.TiedNamesSplit` | src/cache/capability-cache.ts:70-86 | equal arguments that list two tied names in either order have different hashes |
| `CacheKey.NestedNamesAreDropped` | src/cache/capability-cache.ts:81-84 | two requests that differ only below the top level share a hash |
| `CacheKey.KeyShared` | src/cache/capability-cache.ts:88-95 | whatever the names hold, slots share a key exactly when their joined names are the same text and their arguments share a hash |
| `CacheKey.ColonFreeShares` | src/cache/capability-cache.ts:88-95 | without colons in the names, slots share a key exactly for the same platform, identity, capability and arguments |
| `CacheKey.PrefixReaches` | src/cache/capability-cache.ts:193-204 | whatever the names hold, a prefix reaches exactly the slots whose own joined names it starts |
| `CacheKey.ColonFreeReaches` | src/cache/capability-cache.ts:193-204 | without colons in the names, an eviction reaches exactly the evicted capability's slots |
| `CacheKey.ColonsConfuse` | src/cache/capability-cache.ts:193-204 | with a colon in a name, evicting one capability reaches another |
| `CapabilityCache.Cache.Get` | src/cache/capability-cache.ts:137-152 | a hit is the stored fresh entry, and only an expired entry under that key is dropped |
| `CapabilityCache.Cache.Set` | src/cache/capability-cache.ts:158-178 | a result is stored exactly when cacheable with a positive lifetime |
| `CapabilityCache.Cache.EvictForCapability` | src/cache/capability-cache.ts:193-204 | exactly the entries under the prefix are dropped, and counted |
| `CapabilityCache.Cache.Sweep` | src/cache/capability-cache.ts:233-240 | exactly the expired entries are dropped |
| `CapabilityCache.Cache.Begin` | src/cache/capability-cache.ts:272-289 | a fresh entry is served with its age and nothing is executed; otherwise the call goes on |
| `CapabilityCache.Cache.Finish` | src/cache/capability-cache.ts:290-294 | the fresh result is returned and stored when cacheable, whatever other calls did in between |
| `CapabilityCache.GetExact` | src/cache/capability-cache.ts:129-241 | over every history, any clock and any names, a read gives the latest accepted, un-evicted result of a slot that shares its key if it is still fresh, exactly unless a read of such a slot or a sweep has seen it expired before |
| `CapabilityCache.GetIsLatest` | src/cache/capability-cache.ts:129-241 | with a clock that does not go back it always does |
| `CapabilityCache.SweepsAndReadsAreInvisible` | src/cache/capability-cache.ts:146-149 | sweeps and reads, with their evictions, change no later read |
| `CapabilityCache.FailuresAreNeverServed` | src/cache/capability-cache.ts:117-127 | over every history, whatever the clock and names, nothing the caller must act on and nothing expired is served |
| `CapabilityCache.ClockMustNotGoBack` | src/cache/capability-cache.ts:146-149 | if the clock goes back, a read can have dropped what is fresh again |
| `IdleShutdown.Daemon.ArmIdleShutdown` | src/daemon.ts:275-281 | one timer is armed for when the timeout since the last activity is over, or at once, or none when disabled |
| `IdleShutdown.Daemon.OnTimer` | src/daemon.ts:281-293 | a due timer shuts an idle daemon down and otherwise disarms |
| `IdleShutdown.ShutsDownOnlyWhenIdle` | src/daemon.ts:270-294 | on every trace the timer shuts down only with no request, stream, run or busy pool and the whole timeout since the last activity |
| `IdleShutdown.StuckExact` | src/daemon.ts:234-240 | from a state that is not stuck exactly an unreported pool edge, with no timer armed and nothing else going on, gets the daemon stuck |
| `IdleShutdown.IdleIsArmed` | src/daemon.ts:234-294 | in every reachable idle state with the timeout enabled a timer is armed, unless such an edge has happened |
| `IdleShutdown.ReportedEdgesSuffice` | src/pool/pool.ts:191-202 | a pool that reports every edge never leaves the daemon stuck |
| `IdleShutdown.IdleGoesDown` | src/daemon.ts:275-294 | an idle daemon left alone goes down as soon as its timer is due |
| `IdleShutdown.SilentEdgeGetsStuck` | src/daemon.ts:281-290 | a session that outlasts the timer and ends unreported leaves the daemon idle for good |
| `WebSocketSender.SettlesWithFirstCause` | src/drivers/node-ws-client.ts:72-216 | under every interleaving the promise settles exactly with the first reason to settle, each reason being read off the events before it: a timeout of the whole request as sent exactly if the socket took the payload, an opening timeout only before an opening, an acknowledgement timeout only after a completed send, a matching frame only after an opening |
| `WebSocketSender.SettledForGood` | src/drivers/node-ws-client.ts:72-74 | nothing later changes a settled promise |
| `WebSocketSender.NeverLeftHanging` | src/drivers/node-ws-client.ts:72-155 | a settled promise has no timer armed; once constructed an unsettled one has an armed timer or a send still to complete |
| `WebSocketSender.NotSentExact` | src/drivers/node-ws-client.ts:157-181 | a payload reported as not sent was taken by the socket nevertheless if and only if the socket first opened after the promise had settled |
| `WebSocketSender.NotSentMeansNotSent` | src/drivers/node-ws-client.ts:157-181 | of a socket that opens no more once told to close, a payload reported as not sent was not taken |
| `WebSocketSender.SuccessIsAcknowledged` | src/drivers/node-ws-client.ts:104-194 | success means a received frame that contains the match, or a completed send when none is asked for |
| `WebSocketSender.LateOpenSends` | src/drivers/node-ws-client.ts:157-171 | the open handler alone would send after the total timeout, were a socket to open after it was told to close |
| `WebSocketSender.Sender.OnOpen` | src/drivers/node-ws-client.ts:157-181 | the open handler hands the payload over, or settles as not sent when that throws |
| `WebSocketSender.Sender.OnSendComplete` | src/drivers/node-ws-client.ts:104-121 | a completed send settles, or starts the acknowledgement timer |
| `WebSocketSender.Sender.OnMessage` | src/drivers/node-ws-client.ts:183-194 | a frame settles exactly when it contains the match |
| `LoginService.Service.Complete` | src/consumer/login-service.ts:211-218 | completing takes an active interaction, and no other, over with its timer; else nothing changes and the answer says how the interaction was closed, as long as that is remembered |
| `LoginService.Service.Finish` | src/consumer/login-service.ts:220-263 | the check's ending decides reply, session and remembered closure; the browser, not closed before, is closed in every case and the reply waits for that |
| `LoginService.Service.CloseEnded` | src/consumer/login-service.ts:261-263 | the caller is told of a completed login exactly when its session is committed and the close did not throw; a close that throws rejects, or makes the consent path unavailable |
| `LoginInteractions.ToldExact` | src/consumer/login-service.ts:148-263 | over every run, a committed session is kept from its caller by a close that throws and by nothing else, and no one is told of a session that is not committed |
| `LoginService.Service.CloseExpired` | src/consumer/login-service.ts:338-344 | expiry closes an interaction, not closed before, and remembers it last, exactly while it is active |
| `LoginService.Service.CloseAll` | src/consumer/login-service.ts:266-274 | everything active is taken over: the first is closed, the others are queued in order |
| `LoginService.Service.CloseReturned` | src/consumer/login-service.ts:266-274 | when a close returns the next queued interaction, not closed before, is closed; when it throws the rest of its queue is dropped |
| `LoginInteractions.OwnersExact` | src/consumer/login-service.ts:154-274 | complete, expiry, closeAll and the consent path own disjoint interactions: over all of them together each opened one counts at most once, and each exactly once if and only if no close threw while its closeAll still had interactions queued |
| `LoginInteractions.ClosedAtMostOnce` | src/consumer/login-service.ts:211-344 | no browser is closed twice and nothing active, being checked or queued has been closed |
| `LoginInteractions.ClosedExactlyOnce` | src/consumer/login-service.ts:211-344 | once nothing is owned any more every opened browser was closed exactly once if and only if no close threw while its closeAll still had interactions queued |
| `LoginInteractions.ActiveIsTimed` | src/consumer/login-service.ts:182-193 | every active interaction has its expiry timer armed |
| `LoginInteractions.SessionsAreEarned` | src/consumer/login-service.ts:220-336 | a session is committed at most once for an interaction, only after an outcome of class success that its contract accepts, and never for one remembered as closed |
| `LoginInteractions.RemembersTheLast` | src/consumer/login-service.ts:358-364 | what is remembered is exactly the last hundred closures |
| `LoginInteractions.LateCompletionIsAnswered` | src/consumer/login-service.ts:346-364 | completing a closed interaction says how it ended exactly while fewer than a hundred closures came after it, and remembered ids are never active |
| `LoginInteractions.ThrowingCloseLeaks` | src/consumer/login-service.ts:266-274 | a close that throws ends the loop of closeAll, and the interactions still queued are never closed |
| `CliArgs.AssertFlags` | src/consumer/cli-args.ts:248-269 | the scan accepts exactly the arguments that are a sequence of known flags, values where due and no forbidden repetition |
| `CliArgs.ReadingIsUnique` | src/consumer/cli-args.ts:248-269 | arguments can be read as such a sequence in at most one way |
| `CliArgs.FlagValues` | src/consumer/cli-args.ts:236-246 | the loop finds what scanning for the flag finds |
| `CliArgs.ScansAgree` | src/consumer/cli-args.ts:228-246 | once the check accepts, flagValues lists the values given and optionalFlag the first of them, and neither complains |
| `CliArgs.NothingIsDropped` | src/consumer/cli-args.ts:228-246 | for a flag that may not be repeated, reading the first value drops nothing |
| `ReplIo.Reader.OnClose` | agent/lib/repl-io.js:30-33 | closing answers every waiting caller with null |
| `ReplIo.KthCallGetsKthLine` | agent/lib/repl-io.js:25-39 | the k-th call gets the k-th line whichever came first, and null exactly when the input has closed without it |
| `ReplIo.AnswersStand` | agent/lib/repl-io.js:25-39 | a resolved promise keeps its value |

## Left out

- Remedies, answer shapes, hints and the payload diff of audit rejections: text for the agent.
- `runUnattended` and `runShapeChecks`: one pass over the detectors with no token, acknowledgement or store.
- The unpacking of bundled shape-issue messages: text.
- Response bodies in the capture: fetched asynchronously and stored on one entry, without effect on the other fields.
- Fractional encoded sizes of scripts: sizes are integers.
- Resume, cancel and discard commands: like start they reserve and complete a record, but create no run.
- Discarding a run during a start operation: the claim is about runs that are not removed.
- The item generator and the one-shot wait as methods: they are suspended at every yield and await, so they are step functions; the watcher they wait on, the page reader and the inspection are a class and methods.
- Sorting in the listing of installed packages: the page is built from an already sorted remainder, and both orders are parameters.
- Quarantined runs in listings: they sort and page like the others, by the same key.
- The calendar validity of a cursor's instant: only its shape is checked.
- Journal reading errors while following or waiting: writers keep the journal sound, so the generator's failure path is only the watcher's.
- The validation of data blobs, buffers and logical order in the item visitor: only the numbering decides what a page holds.
- Outcome contracts, request preparation and scheduling in a public call: an executor's answer, already judged, is the input of the loop.
- Lone surrogates: strings hold Unicode scalar values.
- StreamFraming.WrittenExact: for events whose integers are at most 2^53 - 1, other numbers being known by their text; larger integers and negative zero are not covered.
- StreamFraming.RoundTrip: for the same events.
- The end of a stream because the connection broke: the model's streams end where the server ended them.
- The rest of the build information (collecting files, writing and comparing the JSON file): file-system calls.
- BuildDigest.PreimageExact: for names and domains without NUL, which no file system allows in a name; `BuildDigest.NulNamesCollide` shows that it matters.
- InstalledListing.AgreementExact: for one id a page over an unchanging store; `InstalledListing.MissedExact` covers every finished listing.
- Digest collisions in the cache: the digest is cut to 64 bits in the source and injective here.
- The start and stop of the cache's sweeper timer and of the token store's: their ticks are steps of the histories.
- The socket's `error` and `close` texts, and timers' durations in the one-shot sender: they do not decide which cause settles.
- Opening the login browser and choosing the authentication contract: an interaction starts once its browser is open.
- What becomes of a close that throws outside a login check: an expiry's rejection is not observed by any caller.
- `optionalPositional`, limits and selectors on the command line: each reads one argument.
- The turn prompt of the line reader: text.
- HTTP, processes, files and browsers themselves: their results and events are the inputs of the models.
