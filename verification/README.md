# GoodDealer: a model of its hard logic, in Dafny

GoodDealer keeps a portfolio of domain assets on a desktop, syncs it with a cloud service, takes
payments through a web account and drives a browser for its user. This project models the parts
where its correctness is decided and proves what those parts are for.

- **Sync push** (`PushIsolation`, `Outbox`). A claimed batch of outbox mutations is sent as one
  request and is acknowledged whole, deferred, or cut in two until a bad mutation stands alone.
  The replies are arbitrary. The outbox is the durable side: leases, attempt fences,
  whole-batch compare-and-set, and push cycles that overlap.
- **Sync pull** (`Pull`). Pages are accepted only when their revisions line up with the cursor.
  The reader is followed through runs of good, stale, repeated and malformed pages.
- **Commit fence** (`CommitFence`). Every guarded write ends in a one-shot authority check. A
  run is any interleaving of its steps with revocations, with arbitrary clock readings.
- **Read generation** (`ReadGeneration`). One counter, handed out with each read, guards edits,
  deletes, provider bindings, conflict resolutions and sync commits.
- **Time, money, encodings** (`Calendar`, `Money`, `Projection`, `StrictJson`, `Transcripts`,
  `Profiles`, over `Text`). Civil dates are compared with a calendar that counts days one year
  and one month at a time; timestamps follow the `date-time` of section 5.6 of RFC 3339, with
  the day limits of section 5.7 and the leap years of Appendix C. Host names follow section
  2.3.4 of RFC 1035 and section 2.1 of RFC 1123, duplicate-free JSON section 2.3 of RFC 7493.
- **Billing custody** (`Billing`). Three controllers keep one record each around their remote
  calls. A run may stop at any await, and replies may be lost.
- **Browser session** (`BrowserSession`). Control passes between user and software; a takeover
  takes it back; a write whose outcome may be lost has to be settled first.

`Basics` holds the optional value and the integer bounds they share.

Code that changes things step by step is written as classes, methods and loops and proved
against functions or predicates; what is promised is then proved of those, for every input,
every run and every reachable state. Digests are functions on their inputs: where distinct
digests are needed the lemma says that the hash is injective. SQLite is a store changed by whole
transactions whose last step is the fence. Clocks, random values, replies, text rules, address
rules and adapter results are parameters.

## Where the code and an expectation part

Each of these is proved with its exact condition.

- The read generation is not quite a version of what reads show. Four operations change a
  stamped read and leave the counter: committing a new provider observation, a credential
  operation that changes the active connection, a claim that closes an oversized mutation (which
  only a damaged store holds), and resolving a candidate filed beyond the thousand a read shows,
  which also commits one generation after the one its caller named
  (`ReadGeneration.SilentExactly`, `ReadGeneration.CommitsAtExpected`). The conflict table may
  hold more than a thousand rows: candidates are never deleted. With at most a thousand and none
  of the first three the counter is exact (`ReadGeneration.QuietRunsAreExact`).
- At the last generation an edit, a delete or a resolution can still be replayed, a binding only
  by a caller that read an older generation (`ReadGeneration.BindReplayAtTheEnd`).
- Timestamps are accepted exactly for instants of the years 0 to 9999; the formatters also print
  later ones (`Calendar.AcceptedExactlyInSpan`).
- A private browser profile is never reused until 2^64 - 1 private profiles have been resolved;
  from then on the saturated counter repeats (`Profiles.EqualIdsExactly`).
- `domain_digest` frames its fields but not its domain. It is injective over two different
  domains exactly when neither starts the other; of the two in use neither does (`Transcripts.SeparatedExactly`).
- Closing a session that software or a takeover holds ends it without returning its browser
  context (`BrowserSession.CloseReturnsContextExactly`).

## Model

| member | source | states |
|---|---|---|
| `PushIsolation.ValidatePushResponse` | crates/local-storage/src/desktop_native_cloud.rs:1089-1115 | accepts exactly the replies whose acknowledgements answer the claim place by place with revisions strictly rising from 1 to a head of at most 2^53 - 1 |
| `PushIsolation.CompletePush` | crates/local-storage/src/desktop_native_cloud.rs:624-686 | the whole claim is resolved as the reply says or nothing is; exactly which replies complete, reject, ask for isolation, retry or block |
| `PushIsolation.SplitPush` | crates/local-storage/src/desktop_native_cloud.rs:574-589 | fails exactly below two mutations; else two non-empty halves of the same owner that laid end to end are the claim |
| `PushIsolation.DeferPush` | crates/local-storage/src/desktop_native_cloud.rs:598-616 | succeeds exactly for a non-empty list of one owner and then covers exactly the fragments' mutations |
| `PushIsolation.TakeTurn` | apps/desktop/src-tauri/src/native_cloud_runtime.rs:417-503 | one exchange for the top fragment advances exactly on a committed valid acceptance or an isolating refusal, defers exactly on a lost reply that may be tried again or a storage refusal, and stops otherwise; it keeps log and stack equal to what they were, each verdict is the one its answer gives, and against a deterministic server it splits exactly a batch of several with a bad one |
| `PushIsolation.DeterministicServerExists` | crates/local-storage/src/desktop_native_cloud.rs:630-686 | whatever the bad mutations are, some server refuses exactly the claims that hold one and validly accepts every other claim of at most 256 |
| `PushIsolation.DrivePush` | apps/desktop/src-tauri/src/native_cloud_runtime.rs:383-506 | the loop conserves the claim against any replies, stays within limit and 2n - 1 requests, makes as many splits as requests only on a claim of at least 2^splits, isolates against a deterministic server, invents no verdict, and ends as the limit, the host or the last answer made it end |
| `PushIsolation.RunPush` | apps/desktop/src-tauri/src/native_cloud_runtime.rs:354-548 | a cycle is valid exactly when nothing is left, deferred exactly for a spent limit, a cancellation, a deferrable lost reply or a storage refusal at its last exchange, stopped otherwise; every verdict was given by the answer to a request made; resolved mutations followed by the remaining fragments are the claim, at most 2n - 1 requests, at most eight splits in nine requests over 256, the deferral list is never refused for emptiness or a second owner and covers exactly the unresolved; deterministic server: right verdicts, only the limit stops it, 2n - 1 requests always suffice and are all needed when every mutation is bad, nothing resolved exactly when stuck, something always with nine requests |
| `PushIsolation.StuckOnlyWhenLong` | apps/desktop/src-tauri/src/native_cloud_runtime.rs:383-402 | a deterministic server that keeps a cycle of k requests from resolving anything exists exactly when the claim has at least 2^k mutations |
| `PushIsolation.NineRequestsSuffice` | apps/desktop/src-tauri/src/native_cloud_runtime.rs:383-402 | nine requests always resolve something of a claim of at most 256; eight fail exactly at 256 |
| `PushIsolation.DrainBacklog` | apps/desktop/src-tauri/src/native_cloud_runtime.rs:300-348 | push cycle after push cycle, however the backlog is cut into claims: n mutations are drained in at most n cycles, each once and in order, with exactly the bad ones refused |
| `PushIsolation.SameMutations` | crates/local-storage/src/desktop_native_cloud.rs:603-615 | the deferral list holds the fragments in stack order, the same mutations as in claim order |
| `Outbox.Consider` | crates/local-storage/src/active_workspace/business/mod.rs:4432-4527 | one row of a claim is leased, passed, closed as oversized, stops the claim or fails it as damaged, each exactly when it should |
| `Outbox.Scan` | crates/local-storage/src/active_workspace/business/mod.rs:4348-4546 | a claim leases due rows from the head of the line without skipping one, to its owner until the time asked, under the next fence, and ends only at the limit, the end, a row not due or a full request; it fails only for bad times or limit or on reaching a damaged row |
| `Outbox.OutboxStore.Claim` | crates/local-storage/src/active_workspace/business/mod.rs:4348-4546 | commits such a claim behind its fence, or changes nothing; it fails only for a refused fence, bad times or limit, or a damaged row it reaches |
| `Outbox.ClaimLeavesRowsNotDue` | crates/local-storage/src/active_workspace/business/mod.rs:4432-4442 | a row whose retry time or lease end has not come is not claimed and stays as it is |
| `Outbox.ClaimServesHead` | crates/local-storage/src/active_workspace/business/mod.rs:4432-4527 | the first live row, once its time has come, is leased to the claim under its next fence, or closed exactly when no request can hold it |
| `Outbox.OutboxStore.Acknowledge` | crates/local-storage/src/active_workspace/business/mod.rs:4592-4715 | all acknowledgements pass their compare-and-set or are exact repeats, and every named row then reads acknowledged at its revision; or none is applied; the effect is a change exactly when a row changed |
| `Outbox.OutboxStore.Close` | crates/local-storage/src/active_workspace/business/mod.rs:4881-4943 | every row of the batch becomes conflicted or rejected as asked and no other row changes, or nothing does |
| `Outbox.OutboxStore.Defer` | crates/local-storage/src/active_workspace/business/mod.rs:4761-4852 | every row of the batch becomes pending from now plus its delay, no other row changes and the deadline told is the least of the new ones; or nothing changes |
| `Outbox.DelayDoubles` | crates/local-storage/src/active_workspace/business/mod.rs:4793-4799 | the retry delay is one second at first, doubles with each attempt and stays at 300 seconds |
| `Outbox.AcceptedTogether` | crates/local-storage/src/active_workspace/business/mod.rs:4622-4680 | a batch over different rows is accepted exactly when each is leased to this owner under its fence or already acknowledged as ordered |
| `Outbox.OrdersTakeEffect` | crates/local-storage/src/active_workspace/business/mod.rs:4622-4651 | every order of an accepted batch leaves its row acknowledged at its revision, closed as asked, or pending from its deadline |
| `Outbox.MoveAllChanges` | crates/local-storage/src/active_workspace/business/mod.rs:4622-4651 | a row changes only from leased by this owner under an ordered fence, and only to that order's target |
| `Outbox.SettledRowsFinish` | crates/local-storage/src/active_workspace/business/mod.rs:4904-4936 | every row of an accepted acknowledgement or rejection is finished afterwards |
| `Outbox.ClaimAtHead` | crates/local-storage/src/active_workspace/business/mod.rs:4371-4442 | what a claim leases are consecutive rows with only finished ones before them |
| `Outbox.NextKeeps` | crates/local-storage/src/active_workspace/business/mod.rs:4348-4943 | every step of overlapping cycles keeps rows in order, fences equal to attempts, and each cycle at the head of the line |
| `Outbox.RunInOrder` | crates/local-storage/src/active_workspace/business/mod.rs:4348-4943 | in every run of overlapping, crashing, stalling cycles mutations are finished in device order |
| `Outbox.RunGrows` | crates/local-storage/src/active_workspace/business/mod.rs:4592-4943 | in every run finished rows are final and attempt counts never fall |
| `Outbox.StaleFenceNeverCommits` | crates/local-storage/src/active_workspace/business/mod.rs:4622-4651 | once a row has been leased again, no order under the older fence ever takes effect |
| `Outbox.ClaimsDoNotOverlap` | crates/local-storage/src/active_workspace/business/mod.rs:4432-4513 | what a claim leased is held by its owner under its fences, and a second claim before it expires takes none of it |
| `Outbox.LeaseLasts` | crates/local-storage/src/active_workspace/business/mod.rs:4432-4513 | in every run, until a claim expires all that its cycle has left stays leased to it under its fences |
| `Outbox.NoSecondLease` | crates/local-storage/src/active_workspace/business/mod.rs:4432-4442 | in every run no other cycle leases a row that an unexpired one has left |
| `Outbox.SettlementsAccepted` | crates/local-storage/src/active_workspace/business/mod.rs:4592-4943 | in every run the store accepts whatever settlement a cycle orders before its claim expires |
| `Outbox.AbandonedLeaseLasts` | crates/local-storage/src/active_workspace/business/mod.rs:4432-4442 | in every run the rows of a cycle that was cut off stay as leased until the lease expires |
| `Pull.ValidateFields` | crates/local-storage/src/desktop_native_cloud.rs:1275-1282 | accepts exactly strictly increasing field paths of valid fields |
| `Pull.ValidateMutation` | crates/local-storage/src/desktop_native_cloud.rs:1239-1284 | accepts exactly the mutations with the expected revision, in-range numbers, a delete or upsert of the right shape and ordered fields |
| `Pull.ValidatePullResponse` | crates/local-storage/src/desktop_native_cloud.rs:1164-1237 | accepts exactly the pages for this exchange that hold the revisions from + 1 to returned, at most 256, with no next cursor exactly at the end |
| `Pull.ChainDelivers` | crates/local-storage/src/desktop_native_cloud.rs:1212-1236 | a chain of pages delivers every revision once, in order, wherever it is cut |
| `Pull.SyncReader.CheckMutations` | crates/local-storage/src/active_workspace/business/mod.rs:3423-3463 | the store's own check accepts exactly contiguous pages of storable mutations |
| `Pull.SyncReader.ApplyPage` | crates/local-storage/src/active_workspace/business/mod.rs:3384-3639 | a page is applied whole, leaving its end, its continuation cursor and its token, or recognised as the last one, or refused, a refused projection included, with nothing changed |
| `Pull.AppliedExactly` | crates/local-storage/src/active_workspace/business/mod.rs:3384-3639 | a page is applied exactly when the reader is active and stands at its start, the page is well formed, of this workspace, at most 256 mutations, under its own digest and not the last one, nothing refuses its projection and the fence holds; the cursor left is the page's, absent exactly when it reached as far as the server had |
| `Pull.OneDigestPerPage` | crates/local-storage/src/active_workspace/business/mod.rs:3407-3421 | a page's digest follows from the rest of it: under another digest the same page is never applied |
| `Pull.FiledAlike` | crates/local-storage/src/active_workspace/business/mod.rs:3511-3573 | whatever the inbox held, every mutation of an applied page is filed under its revision by id and digest, and nothing filed before changes |
| `Pull.SyncReader.MarkRebootstrapRequired` | crates/local-storage/src/active_workspace/business/mod.rs:3716-3772 | stops the reader and forgets its cursor and token, leaving revision, inbox and workspace; a change exactly the first time |
| `Pull.FreshApply` | crates/local-storage/src/active_workspace/business/mod.rs:3511-3573 | beyond the cursor every mutation is filed and projected unless the projection refuses one; the already-filed branch is never taken |
| `Pull.StepExtends` | crates/local-storage/src/active_workspace/business/mod.rs:3384-3639 | one event leaves cursor, inbox and workspace alone or extends them by exactly one page |
| `Pull.RunExtends` | crates/local-storage/src/active_workspace/business/mod.rs:3384-3639 | in every run the cursor never goes back, the inbox grows by exactly the revisions passed, and the workspace is their projection, once each and in order |
| `Pull.RunFollowsLog` | crates/local-storage/src/active_workspace/business/mod.rs:3384-3639 | against one server log the cursor decides what was filed and projected |
| `Pull.CutsDoNotMatter` | crates/local-storage/src/active_workspace/business/mod.rs:3384-3639 | two runs against one server log that reach the same revision have the same workspace and rows |
| `Pull.RunCursor` | crates/local-storage/src/active_workspace/business/mod.rs:3598-3618 | in every run the reader stands at the page applied last; while it is active its cursor is that page's token, absent exactly when that page reached its end |
| `Pull.MarkIsFinal` | crates/local-storage/src/active_workspace/business/mod.rs:3485-3493 | after a committed mark no page, mark or fence failure changes anything of the reader |
| `Pull.OnlyTheLastPageReplays` | crates/local-storage/src/active_workspace/business/mod.rs:3494-3510 | the last page with its token changes nothing, and with a collision-free digest nothing else is taken for it |
| `Pull.ValidPageApplies` | crates/local-storage/src/desktop_native_cloud.rs:716-730 | what the host accepts at the cursor the store applies, up to the store's own text rules |
| `CommitFence.DesktopSyncRuntime.BeginSyncRun` | crates/local-storage/src/desktop_sync_runtime.rs:449-481 | admits exactly inside the window for its own workspace below 2^53 - 1 runs, each under a new number |
| `CommitFence.DesktopSyncRuntime.RecheckSyncRun` | crates/local-storage/src/desktop_sync_runtime.rs:483-504 | passes exactly the runtime's own admissions, its database, and readings inside its window |
| `CommitFence.OnlyCommitChangesStore` | crates/local-storage/src/desktop_sync_runtime.rs:150-170 | storage changes in no other way than by a commit after a passed fence |
| `CommitFence.UncommittedKeepsStore` | crates/local-storage/src/desktop_sync_runtime.rs:551-572 | an operation that does not commit leaves storage as it found it |
| `CommitFence.CommitPassedItsFence` | crates/local-storage/src/desktop_sync_runtime.rs:150-170 | in every interleaving a commit follows its body, snapshot and fence with only revocations between; floor <= reading < end at both, the runtime's own identity, a nonzero authority generation and the published epoch still the requested one at the fence; it stores its body's result on the store it replaced |
| `CommitFence.CommitWasAdmitted` | crates/local-storage/src/backup/desktop_local_host.rs:3303-3348 | before its body the same operation was entered, checked by the host as active, unrevoked and inside the authority's window, and rechecked as the runtime's own admission for its own database inside its window |
| `CommitFence.UndisturbedCommits` | crates/local-storage/src/desktop_sync_runtime.rs:551-572 | an operation that meets all its conditions and no revocation runs to its commit and stores its body's result |
| `CommitFence.CommittedIsReported` | crates/local-storage/src/backup/desktop_local_host.rs:3303-3348 | after a commit any number of revocations leaves the result a success |
| `CommitFence.CommitCommutes` | crates/local-storage/src/backup/desktop_local_host.rs:2478-2501 | a commit commutes with a revocation just before it |
| `CommitFence.CommitMovesToFence` | crates/local-storage/src/backup/desktop_local_host.rs:2478-2501 | check and commit act as one step: every run is a run to the same state with the commit right after its fence |
| `ReadGeneration.OneCommitPerVersion` | crates/local-storage/src/active_workspace/business/mod.rs:1868-1880 | of the edits and deletes made against one version of an asset at most one ever commits, in every run |
| `ReadGeneration.RunHolds` | crates/local-storage/src/active_workspace/business/mod.rs:1225-1254 | in every run no asset returns to an earlier version, and a binding keeps its connection and resource and never falls to an older credential generation |
| `ReadGeneration.EditCommitsExactly` | crates/local-storage/src/desktop_business_runtime.rs:510-586 | an edit or delete commits exactly for the present generation below the last, the present version of a live asset and a fresh id, and leaves that content and one pending outgoing mutation; it is replayed exactly for the same mutation |
| `ReadGeneration.BindCommitsExactly` | crates/local-storage/src/desktop_business_runtime.rs:469-508 | a binding commits exactly for the present generation below the last and an observation of a live asset that succeeds its binding, and replays exactly where it is bound |
| `ReadGeneration.FenceRefusesAll` | crates/local-storage/src/backup/desktop_local_host.rs:2478-2501 | behind a fence that refuses every operation fails and changes nothing |
| `ReadGeneration.ResolutionCommits` | crates/local-storage/src/active_workspace/business/mod.rs:3954-4133 | a resolution commits exactly when its candidate is open, its version, revision, set and present value are the ones named, the reader has caught up, nothing of the asset is in flight and a kept local value is no deletion; it closes that candidate only; keeping local queues one upsert of all four fields whose path has the named hash, accepting remote leaves the path reading the remote value and every other path alone, or archives the asset |
| `ReadGeneration.ResolveCases` | crates/local-storage/src/desktop_business_runtime.rs:650-717 | a resolution commits exactly for a resolvable candidate and the generation its caller read, replays exactly for its receipt one generation later, bumps exactly for a candidate a read shows; the exhaustion branch is unreachable |
| `ReadGeneration.StepGeneration` | crates/local-storage/src/desktop_business_runtime.rs:469-733 | the generation rises by one exactly on commits (other than of a candidate no read shows), never on replays or fence failures, and stays within 2^53 - 1 |
| `ReadGeneration.StepKeeps` | crates/local-storage/src/desktop_business_runtime.rs:469-733 | every operation keeps candidate ids unique and candidates with a receipt closed |
| `ReadGeneration.SilentExactly` | crates/local-storage/src/desktop_business_runtime.rs:424-717 | exactly the four silent operations change the view and keep the generation |
| `ReadGeneration.LateCommits` | crates/local-storage/src/desktop_business_runtime.rs:680-717 | the resolutions that commit a candidate no read shows are exactly those whose request, fence, generation and candidate meet the late condition |
| `ReadGeneration.FewCandidatesNeverSilent` | crates/local-storage/src/desktop_business_runtime.rs:680-694 | with at most 1000 candidates no resolution is silent |
| `ReadGeneration.ClaimsAndObservationsAreSilent` | crates/local-storage/src/active_workspace/business/mod.rs:4478-4502 | a claim that closes an oversized edit, a new observation and a new connection are such operations |
| `ReadGeneration.LateCandidateIsSilent` | crates/local-storage/src/desktop_business_runtime.rs:680-694 | with 1001 candidates from 1001 remote edits, resolving the last one is such an operation, for any digest |
| `ReadGeneration.GenerationRises` | crates/local-storage/src/desktop_business_runtime.rs:730-733 | in every run the generation never falls and never passes its bound |
| `ReadGeneration.SameGenerationSameView` | crates/local-storage/src/desktop_business_runtime.rs:424-648 | two reads of a run at one generation, with no silent operation between, show the same |
| `ReadGeneration.QuietRunsAreExact` | crates/local-storage/src/desktop_business_runtime.rs:424-717 | with at most 1000 candidates the generation is an exact version of what reads show, in every run of edits, deletes, bindings, resolutions and sync commits |
| `ReadGeneration.CommitsAtExpected` | crates/local-storage/src/desktop_business_runtime.rs:469-586 | a local operation commits at the generation its caller named; a silent resolution one later |
| `ReadGeneration.CommittedAgainstRead` | crates/local-storage/src/desktop_business_runtime.rs:469-717 | a committed local change was made against exactly what its caller had been shown |
| `ReadGeneration.MutationReplaysForever` | crates/local-storage/src/desktop_business_runtime.rs:521-545 | a committed edit or delete sent again is replayed ever after, at any generation, the last included |
| `ReadGeneration.ResolutionReplaysExactly` | crates/local-storage/src/desktop_business_runtime.rs:657-717 | a committed resolution sent again is replayed exactly while no other commit has moved the generation |
| `ReadGeneration.BindReplayAtTheEnd` | crates/local-storage/src/desktop_business_runtime.rs:469-486 | at the last generation a binding replay succeeds exactly for a caller that read an older one |
| `ReadGeneration.DesktopBusinessRuntime.constructor` | crates/local-storage/src/desktop_business_runtime.rs:370-375 | a runtime starts at generation zero |
| `ReadGeneration.DesktopBusinessRuntime.MutateDomainAsset` | crates/local-storage/src/desktop_business_runtime.rs:510-586 | edit and delete do what their step says to database and generation |
| `ReadGeneration.DesktopBusinessRuntime.BindProvider` | crates/local-storage/src/desktop_business_runtime.rs:469-508 | binding does what its step says |
| `ReadGeneration.DesktopBusinessRuntime.ReadsOpen` | crates/local-storage/src/desktop_business_runtime.rs:680-686 | finds exactly whether the candidate is open among the first thousand |
| `ReadGeneration.DesktopBusinessRuntime.ResolveConflict` | crates/local-storage/src/desktop_business_runtime.rs:650-717 | resolution does what its step says, and under the invariant commits, replays and leaves exactly what ResolveCases says |
| `ReadGeneration.DesktopBusinessRuntime.CommitSync` | crates/local-storage/src/desktop_sync_runtime.rs:551-682 | a sync transaction bumps exactly when it shows, behind capacity and fence |
| `ReadGeneration.AcknowledgeShows` | crates/local-storage/src/active_workspace/business/mod.rs:4592-4715 | an acknowledgement takes what was in flight out of the snapshot's pending count and shows exactly then |
| `ReadGeneration.CloseShows` | crates/local-storage/src/active_workspace/business/mod.rs:4881-4943 | a close takes its rows out of the pending count, into the rejected count unless conflicted |
| `ReadGeneration.ClaimShows` | crates/local-storage/src/active_workspace/business/mod.rs:4484-4527 | a claim leases its rows and moves oversized ones from the pending to the rejected count |
| `ReadGeneration.PageShows` | crates/local-storage/src/active_workspace/business/mod.rs:3511-3639 | a page shows its assets, its end and every new candidate, open; a replayed page changes nothing |
| `ReadGeneration.OthersShow` | crates/local-storage/src/active_workspace/business/mod.rs:3716-3772 | a mark shows recovery and shows exactly the first time; a deferral, an observation and a connection change what they name and count as not shown |
| `Calendar.CivilCounts` | crates/local-storage/src/desktop_sync_runtime.rs:964-986 | from year 0 on, the civil date computed for a day number is a valid date with that day number in the counted calendar |
| `Calendar.CountsCivil` | crates/local-storage/src/desktop_sync_runtime.rs:964-986 | the civil date of a valid date's day number is that date |
| `Calendar.ErasAgree` | crates/local-storage/src/desktop_business_runtime.rs:818-837 | the two ways the era is divided agree on every day |
| `Calendar.FormattersAgree` | crates/local-storage/src/desktop_business_runtime.rs:818-837 | both formatters print the same string for every second from 1970 on; the sync one refuses earlier ones |
| `Calendar.ValidatorsAgree` | crates/local-storage/src/portfolio_projection.rs:245-283 | both timestamp validators accept the same strings |
| `Calendar.InstantCounts` | crates/local-storage/src/desktop_sync_runtime.rs:964-986 | the instant computed for a second is valid and counts back to it |
| `Calendar.CountsInstant` | crates/local-storage/src/desktop_sync_runtime.rs:964-986 | the instant of a valid instant's seconds is that instant |
| `Calendar.AcceptedExactlyInSpan` | crates/local-storage/src/desktop_native_cloud.rs:1491-1524 | a printed timestamp is accepted exactly for the years 0 to 9999, and then decodes to the second printed |
| `Calendar.AcceptedIsRendered` | crates/local-storage/src/desktop_native_cloud.rs:1491-1524 | every accepted string is the timestamp of the second it decodes to |
| `Calendar.OrderIsTime` | crates/local-storage/src/desktop_sync_runtime.rs:964-990 | accepted timestamps are ordered byte by byte exactly as their instants |
| `Money.PrintAccepted` | crates/local-storage/src/portfolio_projection.rs:294-311 | every amount below 10^24 units prints to an accepted string that parses back |
| `Money.AcceptedPrints` | crates/local-storage/src/portfolio_projection.rs:294-311 | every accepted string has units below 10^24 and is their print |
| `Money.EqualUnitsEqualText` | crates/local-storage/src/portfolio_projection.rs:294-311 | accepted amounts are equal numbers exactly when they are equal strings |
| `Projection.JoinOfSplit` | crates/local-storage/src/portfolio_projection.rs:214-235 | splitting at dots and joining gives the id back |
| `Projection.SplitOfJoin` | crates/local-storage/src/portfolio_projection.rs:214-235 | joining dot-free labels and splitting gives the labels back |
| `Projection.LabelsAreSplit` | crates/local-storage/src/portfolio_projection.rs:214-235 | a host name's labels are unique |
| `Projection.ValidateDomainAssetId` | crates/local-storage/src/portfolio_projection.rs:214-235 | accepts exactly dot-joins of at least two valid labels within the length limit |
| `Projection.ValidateTags` | crates/local-storage/src/portfolio_projection.rs:183-195 | accepts exactly valid tags in strictly increasing order |
| `Projection.ValidateFields` | crates/local-storage/src/portfolio_projection.rs:172-199 | accepts exactly rows whose fields are canonical |
| `Projection.ValidateProjection` | crates/local-storage/src/portfolio_projection.rs:162-202 | accepts exactly lists of canonical rows strictly ordered by entity id |
| `Projection.IncreasingListUnique` | crates/local-storage/src/portfolio_projection.rs:162-202 | two strictly increasing lists with the same members are the same list |
| `Projection.SameRowsSameList` | crates/local-storage/src/portfolio_projection.rs:162-202 | two accepted projections with the same set of rows are the same list |
| `StrictJson.Visit` | crates/local-storage/src/desktop_native_cloud.rs:1370-1456 | a tree of any depth is accepted exactly when no object in it repeats a key, and the result means the input |
| `StrictJson.VisitSeq` | crates/local-storage/src/desktop_native_cloud.rs:1439-1445 | an array keeps every element in order |
| `StrictJson.VisitMap` | crates/local-storage/src/desktop_native_cloud.rs:1447-1456 | an object keeps every key and value, and a repeated key is refused |
| `StrictJson.MeaningUnique` | crates/local-storage/src/desktop_native_cloud.rs:1370-1456 | a tree has at most one meaning |
| `StrictJson.EntryOrderIrrelevant` | crates/local-storage/src/desktop_native_cloud.rs:1447-1456 | the order of an object's distinct entries does not change its meaning |
| `Transcripts.DomainPreimage` | crates/local-storage/src/desktop_sync_runtime.rs:1024-1032 | the bytes hashed are the domain and the length-framed fields |
| `Transcripts.DomainPreimageInjective` | crates/local-storage/src/desktop_sync_runtime.rs:1024-1032 | over domains that do not start one another, equal bytes exactly for equal domain and fields |
| `Transcripts.ConnectionAndScopeInjective` | crates/local-storage/src/desktop_sync_runtime.rs:365-380 | the two domains in use never share a preimage and each determines its fields |
| `Transcripts.SeparatedExactly` | crates/local-storage/src/desktop_sync_runtime.rs:1024-1032 | a preimage determines domain and fields over two domains exactly when they are equal or neither starts the other |
| `Transcripts.ResolutionPreimage` | crates/local-storage/src/desktop_business_runtime.rs:112-148 | the bytes hashed for a resolution id |
| `Transcripts.ResolutionIdentity` | crates/local-storage/src/desktop_business_runtime.rs:112-148 | equal bytes exactly for equal installation, account, workspace, device, numbers, hash and choice, decimal printing included |
| `Transcripts.OwnerIdentifiesRun` | crates/local-storage/src/desktop_sync_runtime.rs:912-926 | delivery owners are equal exactly for the same printed nonce part and run number |
| `Profiles.TranscriptInjective` | crates/automation-host/src/profile.rs:126-154 | transcripts are equal exactly for the same scope and persistence and, when private, the same number |
| `Profiles.WriteTranscript` | crates/automation-host/src/profile.rs:126-154 | the bytes hashed, written part by part, are the transcript |
| `Profiles.ProfileRegistry.constructor` | crates/automation-host/src/profile.rs:188-192 | a registry starts empty |
| `Profiles.ProfileRegistry.Resolve` | crates/automation-host/src/profile.rs:195-206 | a persistent key keeps one id, a private one gets the next number, saturating |
| `Profiles.EqualIdsExactly` | crates/automation-host/src/profile.rs:195-206 | with an injective hash two resolves of a run return the same id exactly for the same persistent key, or the same private key once the counter is saturated |
| `Profiles.PrivateNeverReused` | crates/automation-host/src/profile.rs:195-206 | up to 2^64 - 1 private resolves a private id is never handed out again |
| `Billing.EpisodeKeeps` | apps/account-web/src/billing-recovery-controller.ts:54-118 | within an episode the pending request stays, and so does its accepted identity |
| `Billing.OneRequestPerEpisode` | apps/account-web/src/billing-recovery-controller.ts:54-118 | requests sent with no clear or rejection between them are the same |
| `Billing.OneEffectPerEpisode` | apps/account-web/src/billing-recovery-controller.ts:236-336 | a server that acts once per request has acted at most once per episode |
| `Billing.RunsAreLegal` | apps/account-web/src/billing-recovery-controller.ts:46-336 | however operations are chosen and stopped, the whole log keeps the custody rules |
| `Billing.CheckoutLawful` | apps/account-web/src/billing-recovery-controller.ts:54-118 | every checkout operation keeps the custody rules at every effect |
| `Billing.CancellationLawful` | apps/account-web/src/billing-recovery-controller.ts:149-202 | every cancellation operation keeps the custody rules at every effect |
| `Billing.RefundLawful` | apps/account-web/src/billing-recovery-controller.ts:236-336 | every refund operation keeps the custody rules at every effect |
| `Billing.CheckoutCustody` | apps/account-web/src/billing-recovery-controller.ts:54-118 | in every interrupted run of checkout: write-ahead, one request and at most one server effect per episode |
| `Billing.CancellationCustody` | apps/account-web/src/billing-recovery-controller.ts:149-202 | the same for cancellation |
| `Billing.RefundCustody` | apps/account-web/src/billing-recovery-controller.ts:236-336 | the same for refunds |
| `Billing.CheckoutOutcome` | apps/account-web/src/billing-recovery-controller.ts:54-118 | which request a checkout operation sends, and that run to its end it leaves that request pending, a mark, nothing on a settled status, or the record as it was |
| `Billing.CancellationOutcome` | apps/account-web/src/billing-recovery-controller.ts:149-202 | which request a cancellation operation sends, and that the record goes exactly at the end of the period or when nothing runs any more |
| `Billing.RefundOutcome` | apps/account-web/src/billing-recovery-controller.ts:236-336 | which request a refund operation sends, and that the record goes exactly on a refunded answer of its purchase and identity, gains its identity once, or becomes rejected |
| `Billing.EffectsComeFromSteps` | apps/account-web/src/billing-recovery-controller.ts:46-336 | every effect of an interrupted run is one its operation makes of the store before it |
| `Billing.CheckoutEndsOnly` | apps/account-web/src/billing-recovery-controller.ts:74-118 | in every run a checkout record ends only by a settled status or its own deterministic rejection |
| `Billing.CancellationEndsOnly` | apps/account-web/src/billing-recovery-controller.ts:161-202 | in every run a cancellation record ends only by an answer that ends the cancellation |
| `Billing.RefundEndsOnly` | apps/account-web/src/billing-recovery-controller.ts:256-336 | in every run a refund record ends only by an answer that its purchase is refunded, or by a rejection under its own id and purchase |
| `Billing.RefundIdentityIsFixed` | apps/account-web/src/billing-recovery-controller.ts:310-336 | within one pending episode the refund identity goes from none to one id and never on or back |
| `Billing.RejectedIsNotResent` | apps/account-web/src/billing-recovery-controller.ts:57-62 | in every run a rejected request is sent again only after a clear or another request's turn |
| `Billing.CheckoutController.StartCheckout` | apps/account-web/src/billing-recovery-controller.ts:54-67 | whatever happened of it, the record is this request; a first part of its effects in order |
| `Billing.CheckoutController.MarkDeterministicallyRejected` | apps/account-web/src/billing-recovery-controller.ts:74-85 | only the pending request of that id becomes rejected |
| `Billing.CheckoutController.Recover` | apps/account-web/src/billing-recovery-controller.ts:87-118 | a first part of the recovery's effects in order |
| `Billing.CancellationController.RequestCancellation` | apps/account-web/src/billing-recovery-controller.ts:149-159 | nothing happens while another cancellation is pending; else a first part of its effects in order |
| `Billing.CancellationController.Recover` | apps/account-web/src/billing-recovery-controller.ts:161-202 | a first part of the recovery's effects in order |
| `Billing.RefundController.RequestRefund` | apps/account-web/src/billing-recovery-controller.ts:236-254 | a refund already accepted keeps its record while pending; a first part of its effects in order |
| `Billing.RefundController.RetryRefund` | apps/account-web/src/billing-recovery-controller.ts:256-275 | the record stays while pending; a first part of the retry's effects in order |
| `Billing.RefundController.Recover` | apps/account-web/src/billing-recovery-controller.ts:277-308 | a first part of the recovery's effects in order |
| `Billing.RefundController.FinishRequest` | apps/account-web/src/billing-recovery-controller.ts:310-336 | files the reply: rejected with its purchase, cleared exactly when refunded under the known identity, pending under the identity it gives, or left alone |
| `BrowserSession.RunKeeps` | crates/automation-host/src/browser_runtime.rs:105-299 | in every run a controlled session holds a lease and the user never holds an unsettled write |
| `BrowserSession.NavigationHasLease` | crates/automation-host/src/browser_runtime.rs:168-171 | the branch that finds no lease is never taken |
| `BrowserSession.WriteBlocksSoftware` | crates/automation-host/src/browser_runtime.rs:184-263 | after a write or lost-result mark software control begins again only after a completion or a confirmation |
| `BrowserSession.FailedOnlyCloses` | crates/automation-host/src/browser_runtime.rs:279-299 | a failed session only ever closes, and asks the adapter for nothing else |
| `BrowserSession.FailedForGood` | crates/automation-host/src/browser_runtime.rs:279-299 | in every run a failed session stays failed until it is closed |
| `BrowserSession.FailureOutcome` | crates/automation-host/src/browser_runtime.rs:265-277 | a software failure fails the session exactly when no write was dispatched and no result is or may be lost; otherwise only a confirmation gives control back |
| `BrowserSession.SequenceRises` | crates/automation-host/src/browser_runtime.rs:105-299 | the sequence number never falls and rises with every admitted change of control and every failure |
| `BrowserSession.NavigatesOnlyWhenBound` | crates/automation-host/src/browser_runtime.rs:42-56 | the adapter navigates only while session, profile and navigation generations are the policy's and the address is admitted, on the lease held |
| `BrowserSession.TakeoverEndsNavigation` | crates/automation-host/src/browser_runtime.rs:220-244 | after a completed takeover no navigation of the session ever reaches the adapter |
| `BrowserSession.OneContextPerSession` | crates/automation-host/src/browser_runtime.rs:124-141 | a session opens at most one context and asks about no other afterwards |
| `BrowserSession.CloseReturnsContextExactly` | crates/automation-host/src/browser_runtime.rs:279-299 | closing gives the context back exactly when neither software nor a takeover holds the session |
| `BrowserSession.BrowserRuntime.constructor` | crates/automation-host/src/browser_runtime.rs:75-103 | a session is prepared at first generations with no context and no side effect |
| `BrowserSession.BrowserRuntime.Start` | crates/automation-host/src/browser_runtime.rs:105-148 | succeeds exactly for a prepared session, an admitted address, an opened and navigated context and a free number; then it is the user's and holds that context; every failure but an occupied context fails it |
| `BrowserSession.BrowserRuntime.Navigate` | crates/automation-host/src/browser_runtime.rs:150-179 | succeeds exactly in user control where the policy decides for it and the adapter obeys; the adapter is asked in no other case, and a refusal fails the session |
| `BrowserSession.BrowserRuntime.BeginSoftwareControl` | crates/automation-host/src/browser_runtime.rs:184-193 | software takes control exactly from the user, with no side effect open |
| `BrowserSession.BrowserRuntime.RecordDispatchedSideEffect` | crates/automation-host/src/browser_runtime.rs:195-210 | recorded exactly in software control, for a dispatch, and never downgrading one that needs confirmation |
| `BrowserSession.BrowserRuntime.RequestTakeover` | crates/automation-host/src/browser_runtime.rs:212-216 | exactly from software control a takeover is pending with the side effect and context as they were |
| `BrowserSession.BrowserRuntime.CompleteTakeover` | crates/automation-host/src/browser_runtime.rs:220-244 | both counters rise by one and the outcome is unknown exactly after a write or a lost result, else the user has control; an overflow or a failed invalidation fails the session |
| `BrowserSession.BrowserRuntime.RecordIndependentConfirmation` | crates/automation-host/src/browser_runtime.rs:246-252 | exactly from an unknown outcome the user has control and nothing to confirm |
| `BrowserSession.BrowserRuntime.CompleteSoftwareControl` | crates/automation-host/src/browser_runtime.rs:254-263 | exactly from software control the user has control and nothing to confirm |
| `BrowserSession.BrowserRuntime.RecordSoftwareFailure` | crates/automation-host/src/browser_runtime.rs:265-277 | a write, a lost result or one that may be lost leaves the outcome unknown, anything else fails the session; side effect and context stay |
| `BrowserSession.BrowserRuntime.CloseSession` | crates/automation-host/src/browser_runtime.rs:279-299 | the session is closed without a context, which is handed back exactly in the states closing accepts |
| `BrowserSession.BrowserRuntime.RequestForbidden` | crates/automation-host/src/browser_runtime.rs:301-322 | downloads, choosers, popups and permissions are refused, fail the session and reach no adapter |
| `BrowserSession.BrowserRuntime.ObserveEngineEvent` | crates/automation-host/src/browser_runtime.rs:324-346 | a committed navigation leaves state and context, a crash drops the context, and anything unknown fails the session |
| `BrowserSession.BrowserRuntime.AdvanceProfileGeneration` | crates/automation-host/src/browser_runtime.rs:348-351 | a new profile generation fails the session |
| `BrowserSession.BrowserRuntime.AdvanceNavigationGeneration` | crates/automation-host/src/browser_runtime.rs:353-356 | a new navigation generation fails the session |
| `BrowserSession.BrowserRuntime.AdvanceAppBoot` | crates/automation-host/src/browser_runtime.rs:358-362 | a new application boot fails the session and drops its context |

## Left out

- PushIsolation.SplitPush: does not model re-serialising a half, whose only failure is the one-mebibyte request limit the whole claim already met.
- PushIsolation.DrainBacklog: takes the deterministic server of the isolation promise; against other servers only conservation and the request bounds are stated.
- PushIsolation.RunPush: gives the list to defer; that the durable deferral of it may still be refused, by its fence or a newer lease, is `Outbox.OutboxStore.Defer`.
- Outbox.Scan: a row's place stands for its mutation id, device, lease epoch, sequence and wire digest; request size and the digest comparison that finds a damaged row are arbitrary predicates.
- Outbox.OutboxStore.Acknowledge: the field versions and tombstones updated beside an acknowledged row are not part of the model.
- Pull.SyncReader.ApplyPage: projecting a mutation onto the workspace, with its conflicts and refusals, is an arbitrary partial function, and page size an arbitrary predicate; the overflow of a 64-bit revision, which the wire check excludes, is not modelled.
- ReadGeneration.DesktopBusinessRuntime.MutateDomainAsset: payload digests stand for payloads; text rules of the asset fields are not modelled.
- ReadGeneration.DesktopBusinessRuntime.ResolveConflict: field values are held as their JSON text; taking an accepted remote value apart into columns, whose failure refuses the resolution, is not modelled.
- ReadGeneration.DesktopBusinessRuntime.BindProvider: which committed observation is the latest eligible one is decided by a query over credentials and connections; the model takes its answer.
- ReadGeneration.SilentExactly: an observation read and the observation a binding takes are one table of the model, two of the store.
- ReadGeneration.DesktopBusinessRuntime.CommitSync: the compare-and-set details of acknowledgement, rejection, claim and deferral are in `Outbox`, those of pages in `Pull`; here they are sets of mutations and a page result.
- CommitFence.CommitPassedItsFence: a rebootstrap with a checkpoint is two guarded transactions; each is covered, their pair is not one transaction.
- Billing.RunsAreLegal: operations run one at a time; two browser tabs at once are not modelled, the controllers take no lock.
- Billing.CancellationController.RequestCancellation: the stored value is a request and nothing else, which the model says as a requirement on the store.
- StrictJson.Visit: a number keeps its literal; its conversion to a 64-bit integer or float is not modelled.
- Profiles.ProfileRegistry.Resolve: the characters an identifier may have are left out; its length bounds are kept.
- BrowserSession.BrowserRuntime.Start: the adapter's kinds of failure are one, except an occupied context.
- The Unicode text filters for notes and tags, address parsing, and the fixed request structures: tables and external parsers, kept as arbitrary predicates.
- SQLCipher, SQL statements, migrations, backup and restore, keychain and secret service calls: foreign code behind the abstract store.
- Cloudflare credential provisioning and projection delivery: they would repeat the lease and fence arguments of the outbox.
- The conflict projection shown to the user, transport state aggregation and diagnostics: one-branch facts.
- User interface, brand assets, internationalisation and build configuration.
