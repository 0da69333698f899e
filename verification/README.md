# Dynamic configuration: watches, notification and staging, modelled and proved

The repository keeps a running program's configuration current. Its hard parts are small protocols with shared
state and loops that must survive a remote store misbehaving. This project models five of them in Dafny and
proves what every run of them keeps.

- **Embedded notification** (`EmbeddedNotify`, `EmbeddedRuns`, `EmbeddedTheorems`, `EmbeddedRepeats`). `Notify`, `ConfigCell` and
  `Changes` are classes over a real slot array. Every critical section is also a step of a transition system in
  which stores, polls, wakes and dropped futures interleave freely; `Bumped`, `Registered` and `Evicted` are the
  functions both sides share. One inductive invariant gives the theorems: no lost wake-up, at rest within the
  slot budget, freshness, when the next result is sure to be newer, what the wrapping generation can miss, and the
  over-budget livelock for every slot count.
- **etcd watch** (`EtcdWatch`, `EtcdServer`, `EtcdEndings`). The loop is a method over its own variables, proved against a
  function of what the cluster and the callback answer; the revision each range read asks for is the loop's own
  choice. Against a store that is a log of revisions it delivers a key's puts exactly once and never tears a
  prefix. Every ending is told from its cause, failure reports and token refreshes are counted, and the bound on
  refreshes is attained.
- **Node staging** (`NodeStaging`, `NodeRuns`, `NodeCache`). The staged list, the sequence guard, the cache and the generation as
  a class, and every interleaving of validations, commits, replacements and candidate loads as a transition system.
- **Git source** (`GitPaths`, `GitTree`, `GitRead`, `GitObjects`, `GitDatabase`, `GitStore`, `GitOutcomes`, `GitCompaction`,
  `GitWatch`, `GitFollow`, `HttpExchange`). Commits, trees and blobs are objects by id; the lookup, the stack walk with its budgets
  and the reads under one byte budget fetch each of them and fail on one that is missing. The working directory under
  compaction, opening and fetching, the ref-polling watch on top of it, and the lazy HTTP exchange.
- **Consul watch and Firestore** (`ConsulWatch`, `Firestore`, `FirestoreBatch`). A loop that refines a sequence
  function, a recursive decoder that inverts the tagged encoding, and an unordered reply put back in call order.

`Common` holds what the models share. `dafny verify dfyconfig.toml` checks everything.

## What is assumed

- *Critical sections and atomics.* A critical section, a held lock or one atomic operation is one step. `WAITERS` is
  at least one, since a full `register` indexes slot 0, and each handle polls with one waker of its own.
- *etcd.* A stream hands its revisions over in order; a response's header revision is the end of what that stream has
  handed over; a stream opened without a start revision begins after the current one; a range read at a revision
  answers with the range at that revision, or with more keys than the budget when it holds more.
- *Git.* An id names one object, and no object names itself, however indirectly. A received pack file completes the
  commit it was asked for and brings nothing that commit does not need. A transfer that fails leaves the database as it
  was. A bare repository is initialised only in an empty directory; initialising it may fail and leave files, but
  neither packs nor the marker. A marker that was created and not written in full is a marker. A ref's answers never go
  back in time.
- *Foreign answers.* The merge of several documents, base64 and UTF-8 decoding, JSON parsing, the callback and every
  server reply are inputs: each run is over all of their answers. JSON objects come to the Firestore decoder as
  parsed, one member per name, in iteration order.

## What the proofs found

- A cell's handle can be given the same value twice, even with one store at a time (`SameValueTwice`): a store that lands
  between the generation read and the fetch of one `take` is fetched now and announced later. `NextIsNewerIff` says
  exactly when the next result is sure to be newer.
- A token that expires before the first header-bearing message loses the puts made meanwhile
  (`PutLostBeforeFirstMessage`); `ExactlyOnceIff` says exactly when anything is lost or repeated.
- Overlapping commits can leave an older document in the cache (`OverlapCanServeStale`, `StaleCacheIsReachable`);
  `CacheIsNewestIff` says exactly when the newest is served.
- A compaction that fails part-way can leave a commit without its tree, and then no read of that commit succeeds
  (`StuckForever`, `StuckIsReachable`). `StaysClosedIff` says, before a call, whether that can happen: only to packs that
  are not complete by themselves.
- A compaction that fails part-way can also leave a directory that is neither a repository nor empty, in which no call
  ever succeeds again (`DeadForever`, `CompactionCanKill`); so can a creation that fails part-way, and nothing else can
  (`CanBeLostIff`).
- A marker file that is not created with the repository is never created later (`UnmarkedForGood`), and such a repository
  grows without bound (`GrowsWithoutTheMarker`).
- The module comment of `working.rs` says compaction never happens on an idle tick (dynamic-config-git/src/working.rs:57-59).
  The code compacts on every `once` (dynamic-config-git/src/lib.rs:677); the model follows the code, and
  `IdleChecksEmpty` says when idle checks empty the database.
- The comment on `max_bytes` says it bounds a single file (dynamic-config-git/src/lib.rs:972-978). The code bounds the
  whole read as well (dynamic-config-git/src/fetch.rs:377-404); the model follows the code.
- The comment on `path_of` says a name outside the database is refused (dynamic-config-firestore/src/lib.rs:893-897). A
  name that is spelled like a requested path and lies outside the database is accepted (`PathOfIff`).

## Model

| member | source | states |
|---|---|---|
| `EmbeddedNotify.RegisterKeeps` | dynamic-config-embedded/src/asynchronous.rs:123-172 | a waker that is parked changes nothing, a new one takes the first free slot, and with none free it takes slot 0, hands back who was there, counts one eviction up to 2^32-1 and leaves the other slots; wakers stay pairwise distinct |
| `EmbeddedNotify.Notify.constructor` | dynamic-config-embedded/src/asynchronous.rs:79-87 | generation and evictions start at 0 with every slot empty |
| `EmbeddedNotify.Notify.Bump` | dynamic-config-embedded/src/asynchronous.rs:98-121 | the generation moves by one modulo 2^32, every slot is emptied, and exactly the parked wakers come back in slot order |
| `EmbeddedNotify.Notify.Register` | dynamic-config-embedded/src/asynchronous.rs:123-172 | the slot scan keeps the occupied slots a prefix of distinct wakers and refines `Registered`; the displaced waker comes back |
| `EmbeddedNotify.ConfigCell.Store` | dynamic-config-embedded/src/cell.rs:89-96 | installs the value, then bumps; hands back the wakers parked before |
| `EmbeddedNotify.ConfigCell.Apply` | dynamic-config-embedded/src/cell.rs:140-150 | a document that does not parse or validate leaves value, generation, slots and wakers untouched; otherwise it is a store |
| `EmbeddedNotify.Changes.constructor` | dynamic-config-embedded/src/asynchronous.rs:188-193 | what is current when the handle is made counts as seen |
| `EmbeddedNotify.Changes.Take` | dynamic-config-embedded/src/asynchronous.rs:245-256 | answers nothing exactly when the generation is the one seen, and a value otherwise |
| `EmbeddedNotify.Changes.PollOnce` | dynamic-config-embedded/src/asynchronous.rs:227-242 | ready exactly when there is something unseen; `Pending` only with the waker in a slot |
| `EmbeddedRuns.StepKeeps` | dynamic-config-embedded/src/asynchronous.rs:98-256 | every atomic step of stores, polls and wakes keeps the invariant on slots, stores, handles and owed wakes |
| `EmbeddedRuns.RunInv` | dynamic-config-embedded/src/asynchronous.rs:98-256 | the invariant holds in every state of every run, for every number of slots |
| `EmbeddedTheorems.NoLostWakeUp` | dynamic-config-embedded/src/asynchronous.rs:123-172 | in every interleaving a parked task is scheduled, owed a wake by a call in progress, or in a slot, and in a slot it has missed no bump since it last read the generation |
| `EmbeddedTheorems.IdleWithinBudget` | dynamic-config-embedded/src/asynchronous.rs:19-32 | a system at rest has parked at most `WAITERS` tasks, so more than that never come to rest |
| `EmbeddedTheorems.OverBudgetNeverSettles` | dynamic-config-embedded/src/asynchronous.rs:149-156 | for every slot count and every `n`, one task too many and no store at all reach `n` displacements, with a task still scheduled |
| `EmbeddedTheorems.MissedExactlyOnWrap` | dynamic-config-embedded/src/asynchronous.rs:102-108 | a generation check finds nothing exactly when the bumps since the last move of `seen` are a multiple of 2^32; a change is missed only after at least 2^32 |
| `EmbeddedTheorems.TakeIsFresh` | dynamic-config-embedded/src/asynchronous.rs:245-256 | once `seen` has moved the cell holds a value, and what is returned is the newest install, no older than any bumped store or any earlier result |
| `EmbeddedTheorems.ResultsNeverGoBack` | dynamic-config-embedded/src/asynchronous.rs:195-203 | one handle's results are installed values in non-decreasing store order |
| `EmbeddedTheorems.SettledOnTheNewest` | dynamic-config-embedded/src/asynchronous.rs:237-242 | at rest, a waiting handle that has not slept through 2^32 bumps has returned the value the cell holds, or was made after the last store |
| `EmbeddedTheorems.EvictionsCountTheOverBudget` | dynamic-config-embedded/src/asynchronous.rs:158-163 | the counter is the number of displacements capped at 2^32-1, and somebody was displaced since the last bump exactly when more distinct tasks registered than there are slots |
| `EmbeddedRepeats.NextIsNewerIff` | dynamic-config-embedded/src/asynchronous.rs:245-256 | for every run that has just given a handle a value: its next result is newer in every continuation if and only if at that moment no store stands between installing and bumping and the generation is still the one seen |
| `EmbeddedRepeats.SameValueTwice` | dynamic-config-embedded/src/asynchronous.rs:246-255 | a run with never more than one store in progress that gives one handle the same install twice, for every number of slots |
| `EtcdWatch.Establish` | dynamic-config-etcd/src/lib.rs:763-777 | the first stream, with one refresh and one retry for an expired token, and one report if it cannot be had |
| `EtcdWatch.RereadRange` | dynamic-config-etcd/src/lib.rs:877-927 | the prefix branch refines its specification: the range is read at the header's own revision, and once more at that revision after one refresh; nothing for an empty range, and the ending it leads to |
| `EtcdWatch.DeliverEach` | dynamic-config-etcd/src/lib.rs:929-946 | the single-key branch delivers the batch's puts in order until one is not text or is refused |
| `EtcdWatch.Respond` | dynamic-config-etcd/src/lib.rs:867-946 | what one uncancelled message delivers, refreshes and ends with |
| `EtcdWatch.WatchLoop` | dynamic-config-etcd/src/lib.rs:731-956 | the loop over `token_recoveries` and `resume_from` computes the outcome, deliveries, reports and refreshes of the step function, whatever the cluster and the callback answer |
| `EtcdWatch.Accounting` | dynamic-config-etcd/src/lib.rs:633-637 | no run ends in Ok; one failure is reported exactly when it ended on the store's side; with m messages at most 1 + 3(m+1) + m refreshes; a pre-flight refusal asks and reports nothing |
| `EtcdEndings.EndsExactly` | dynamic-config-etcd/src/lib.rs:787-955 | every turn of every run ends the watch in the callback's refusal, unreported, exactly when the callback refuses what the turn hands it, and in a failure of the store, reported once, exactly on an ended stream, a cancelled message, a stream error that is no expired token, the fourth expiry in a row, a token or stream that could not be renewed, a due range that cannot be read or merged, or a value that is not text; each turn refreshes exactly when a token expired |
| `EtcdEndings.BeginsExactly` | dynamic-config-etcd/src/lib.rs:739-777 | which refusal a source gets before anything is asked, when the first stream is a store failure, and that a watch hears of changes only, from the revision after the one it began at |
| `EtcdEndings.OneKeyTurn` | dynamic-config-etcd/src/lib.rs:929-946 | a turn on one key hands over its puts up to and with the one refused, up to the one that is not text, or all of them |
| `EtcdEndings.PrefixTurn` | dynamic-config-etcd/src/lib.rs:877-927 | a turn on a prefix delivers its whole range exactly when the message calls for it and it is answered, presentable, not empty and merges |
| `EtcdWatch.RefreshBoundIsTight` | dynamic-config-etcd/src/lib.rs:779-850 | the bound on token refreshes is attained for every number of messages |
| `EtcdServer.ExactlyOnceIff` | dynamic-config-etcd/src/lib.rs:785-853 | a single-key watch still running has delivered every put since it began exactly once and in order if and only if no recovery resumed across a put |
| `EtcdServer.ExactlyOnce` | dynamic-config-etcd/src/lib.rs:805-848 | from the first header-bearing message on, whatever came before it, and across any number of recoveries, the callback has every later put in revision order without gap or repeat, and a first part of them if the watch ended |
| `EtcdServer.PutLostBeforeFirstMessage` | dynamic-config-etcd/src/lib.rs:785-794 | a token that expires before the first message loses a put |
| `EtcdServer.ReadAtItsRevision` | dynamic-config-etcd/src/lib.rs:1046-1071 | what a message is answered with, at the first read or at the retry, is the whole range as the message's own revision left it, because that is the revision asked for |
| `EtcdServer.NeverTorn` | dynamic-config-etcd/src/lib.rs:867-927 | every document a prefix watch delivers is the whole, non-empty range at one revision, that revision is its own message's, revisions strictly increase across recoveries, and each delivery follows a change since the one before |
| `EtcdServer.UpToDate` | dynamic-config-etcd/src/lib.rs:994-1071 | with headers on every message and a message first, the last document delivered is the range the stream has got to, unless that is empty or nothing under the prefix has changed |
| `EtcdServer.HealsAtNextEvent` | dynamic-config-etcd/src/lib.rs:785-794 | whatever went before, a token that expired before the first message included: from the next header-bearing message with events on, the last document delivered is the range the stream has got to, unless that is empty |
| `NodeStaging.Match` | dynamic-config-node/src/config.rs:164-172 | the first staged entry of an equal tree, or none when there is none |
| `NodeStaging.Inner.TakeSequence` | dynamic-config-node/src/config.rs:138-138 | each validation gets the next sequence |
| `NodeStaging.Inner.Push` | dynamic-config-node/src/config.rs:140-157 | the list becomes the last four of itself and the new entry |
| `NodeStaging.Inner.TakeStaged` | dynamic-config-node/src/config.rs:164-172 | removes exactly the first entry of an equal tree |
| `NodeStaging.Inner.Claim` | dynamic-config-node/src/config.rs:190-199 | a claim wins exactly when nothing as new was committed, and then moves the guard |
| `NodeStaging.Inner.Commit` | dynamic-config-node/src/config.rs:181-208 | an undisturbed commit publishes the oldest entry for its tree once, and changes nothing it does not publish |
| `NodeRuns.RunInv` | dynamic-config-node/src/config.rs:120-220 | in every interleaving: staged entries are what their sequences validated, claims increase, and generation plus calls still to count equals claims plus replacements |
| `NodeRuns.PublishedAtMostOnce` | dynamic-config-node/src/config.rs:174-208 | successful claims have strictly increasing sequences and publish what that validation produced; at rest the generation is claims plus replacements |
| `NodeRuns.StagedBound` | dynamic-config-node/src/config.rs:151-157 | at most four entries between operations |
| `NodeRuns.EvictedAfterFourPushes` | dynamic-config-node/src/config.rs:151-157 | an entry is dropped only after at least four later pushes |
| `NodeCache.CandidatesLeaveNoTrace` | dynamic-config-node/src/config.rs:103-136 | erasing every candidate step from any run gives a run without candidate loads that ends with the same staged list, sequences, claims, cache and generation |
| `NodeRuns.ReloadPublishesOnce` | dynamic-config-node/src/config.rs:342-384 | a reload with no other entry of its tree, fewer than four later pushes and nothing newer committed first is published exactly once, however its commits are ordered |
| `NodeCache.CacheIsNewestIff` | dynamic-config-node/src/config.rs:190-208 | at rest, with no replacement in the cache, the newest committed document is served if and only if its commit wrote the cache while no other commit stood between claiming and writing |
| `NodeCache.EveryClaimIsWritten` | dynamic-config-node/src/config.rs:190-208 | at rest every claim has been written to the cache by some step |
| `NodeCache.ServedIsLastPut` | dynamic-config-node/src/config.rs:738-744 | at every moment of every run, what is served is the document of the last step that put one there: what the latest replacement was given or what the latest commit to write had claimed |
| `NodeCache.SlotIsItsOwn` | dynamic-config-node/src/config.rs:348-354 | a candidate load's slot is empty until something is validated inside that load, and then holds what that validation made |
| `NodeCache.OverlapCanServeStale` | dynamic-config-node/src/config.rs:193-207 | from any reachable overlap the older document can be written last and served |
| `NodeCache.StaleCacheIsReachable` | dynamic-config-node/src/config.rs:193-207 | a run of two overlapping commits that ends with no call in progress, the newer document committed and the older one served |
| `GitPaths.CheckPath` | dynamic-config-git/src/lib.rs:1110-1139 | accepts exactly the relative paths whose every component is non-empty and neither `.` nor `..` |
| `GitPaths.StaysInside` | dynamic-config-git/src/lib.rs:1125-1136 | no path with an empty, `.` or `..` component anywhere is acceptable, and a further ordinary name keeps a path acceptable |
| `GitPaths.LeIff` | dynamic-config-git/src/fetch.rs:624-627 | the order paths are sorted in is that of a dictionary |
| `GitPaths.SortKeeps` | dynamic-config-git/src/fetch.rs:624-627 | sorting yields an ordered permutation |
| `GitPaths.SortedUnique` | dynamic-config-git/src/fetch.rs:624-627 | one set of files has one sorted list |
| `GitDatabase.LookupEntry` | dynamic-config-git/src/fetch.rs:430-436 | looking a path up tree by tree through the database finds what the tree those objects spell out holds there, and nothing when a tree on the way is missing |
| `GitDatabase.Admit` | dynamic-config-git/src/fetch.rs:571-594 | an entry is let through exactly when its name is UTF-8 and its path acceptable, and then its path is below the prefix |
| `GitDatabase.VisitItem` | dynamic-config-git/src/fetch.rs:564-621 | one item moves from in hand to found, or to the stack once its tree is fetched, with nothing lost; a refusal means the tree is to be refused |
| `GitDatabase.Visit` | dynamic-config-git/src/fetch.rs:563-622 | one directory's items, and the stack grows by exactly the directories descended into |
| `GitDatabase.Walk` | dynamic-config-git/src/fetch.rs:520-630 | the stack walk over the objects ends; it succeeds exactly when every name and path below is good, every directory below can be had and files and directories fit the key budget; the result is sorted and is exactly the paths of all non-directory entries |
| `GitRead.LeafFound` | dynamic-config-git/src/fetch.rs:433-436 | in a tree with slash-free, unique names every entry the walk yields is what looking its path up finds |
| `GitRead.LeavesDistinct` | dynamic-config-git/src/fetch.rs:559-622 | no path is yielded twice |
| `GitDatabase.ReadBlob` | dynamic-config-git/src/fetch.rs:423-497 | succeeds exactly on a regular UTF-8 file whose objects are there and that fits the limit and what is left of it, and takes its size off the budget |
| `GitDatabase.ReadPaths` | dynamic-config-git/src/fetch.rs:349-374 | succeeds exactly when there is a path, every path is readable and all together fit the limit; the documents are in the order of the paths |
| `GitDatabase.StartTree` | dynamic-config-git/src/fetch.rs:520-557 | a directory read starts from the tree at its root, if it is a directory and can be had |
| `GitDatabase.ReadDocuments` | dynamic-config-git/src/fetch.rs:316-375 | reading a commit through the database is a function of the one tree its objects spell out |
| `GitObjects.ReadsTheBlob` | dynamic-config-git/src/fetch.rs:423-464 | a path is readable, with that text and size, exactly when it leads item by item through trees that are there to a regular file whose blob is there and is text; no link, submodule or directory is ever read |
| `GitObjects.SuccessIsRight` | dynamic-config-git/src/fetch.rs:331-337 | whatever is missing from a database, a read through it that succeeds is what the whole commit holds |
| `GitObjects.EnoughReads` | dynamic-config-git/src/fetch.rs:265-271 | with everything a commit needs, a read of it is what the whole commit holds, so none fails for a missing object |
| `GitRead.ReadsExactlyLoadable` | dynamic-config-git/src/fetch.rs:331-374 | reading the leaves' paths succeeds exactly when the directory is loadable, whatever order they are in |
| `GitRead.Trimmed` | dynamic-config-git/src/fetch.rs:521-521 | a directory is named without the slashes at its end |
| `GitRead.NamedRead` | dynamic-config-git/src/fetch.rs:349-374 | a read of named files succeeds exactly when there is one, each is a regular UTF-8 file and together they fit, and answers with their texts in the order named |
| `GitRead.DirectoryRead` | dynamic-config-git/src/fetch.rs:316-404 | a directory read succeeds exactly when there is at least one file, all are regular UTF-8 blobs at acceptable paths, files and directories are at most 512 each and the total size fits `max_bytes`; it yields every file once in path order, each with the text at its path |
| `GitStore.Working.Empty` | dynamic-config-git/src/working.rs:253-274 | removes entry by entry in listing order; on a failure what is left was there before, and on success nothing is |
| `GitStore.Working.Compact` | dynamic-config-git/src/working.rs:207-251 | only a marked directory over a non-zero bound is emptied |
| `GitStore.Working.Open` | dynamic-config-git/src/fetch.rs:67-97 | an existing repository is opened and never marked; in an empty directory a new one is initialised, marked and reopened, with what each failing step leaves behind |
| `GitStore.Working.Fetch` | dynamic-config-git/src/fetch.rs:256-288 | a pack is asked for exactly when objects are wanted and the named commit is not here |
| `GitStore.Working.OneCall` | dynamic-config-git/src/lib.rs:657-702 | credential, compaction, opening, fetching and reading in that order, with the directory each failure leaves |
| `GitStore.StaysClosedIff` | dynamic-config-git/src/working.rs:226-274 | the next call is sure to keep every commit in the database complete if and only if the directory is not about to be compacted or every pack in it is complete by itself |
| `GitStore.ClosedAlways` | dynamic-config-git/src/lib.rs:657-702 | object closure is kept by every run of calls in which each compaction that gives up starts from self-contained packs |
| `GitStore.WholePacksAreSafe` | dynamic-config-git/src/fetch.rs:265-288 | with a host that sends all a commit needs, closure holds in every run, however its compactions end |
| `GitStore.ReadIsAtomic` | dynamic-config-git/src/fetch.rs:331-337 | what a call reads through its database is what the whole of one commit holds, the one the host named during that call; on a closed database no read fails for a missing object |
| `GitOutcomes.FailsExactly` | dynamic-config-git/src/lib.rs:657-702 | each error of a call is given by exactly one set of answers: no credential; a directory over its bound that cannot be emptied; no repository that opens and none that could be made; no commit named, or one that is wanted, not here and not sent; and an idle check that gets through names the host's commit |
| `GitOutcomes.ReadsExactly` | dynamic-config-git/src/fetch.rs:265-288 | on a closed database, a wanting call whose answers let it get there reads: it is what the whole of the named commit holds, and fails only if that commit cannot be read |
| `GitOutcomes.DirectoryCall` | dynamic-config-git/src/lib.rs:694-695 | from the answers to the files: a directory call that gets there succeeds exactly when the named commit's tree is loadable, with every file below in path order |
| `GitOutcomes.LeavesExactly` | dynamic-config-git/src/lib.rs:657-692 | the directory each outcome leaves; a pack file is added exactly when the commit was wanted and not here |
| `GitCompaction.StaysBounded` | dynamic-config-git/src/working.rs:226-251 | with bound n > 0, a directory that is unused or marked whenever a call begins holds at most n + 1 packs from the first successful call on, and always if it began within that, whether calls and compactions succeed, fail or give up |
| `GitCompaction.StaysOurs` | dynamic-config-git/src/fetch.rs:77-96 | a directory of the source's own stays so if no emptying fails and repositories are created with the marker or not at all |
| `GitCompaction.ZeroNeverCompacts` | dynamic-config-git/src/working.rs:226-241 | with a bound of 0 nothing is ever removed from a repository |
| `GitCompaction.IdleChecksEmpty` | dynamic-config-git/src/lib.rs:671-677 | a stretch of successful idle checks empties the database exactly when it was marked and over its bound, and leaves every object otherwise |
| `GitCompaction.UnmarkedForGood` | dynamic-config-git/src/fetch.rs:77-96 | a repository left by a failed creation without the marker file is never marked later and keeps every pack it receives |
| `GitCompaction.GrowsWithoutTheMarker` | dynamic-config-git/src/working.rs:207-251 | for every n some possible run adds n packs to an unmarked repository, whatever the bound: the marker in `StaysBounded` is needed |
| `GitCompaction.ForeignUntouched` | dynamic-config-git/src/working.rs:207-251 | in no run does a repository without the marker gain one or lose anything |
| `GitCompaction.StuckForever` | dynamic-config-git/src/fetch.rs:265-271 | an unmarked repository with a commit and without its tree: as long as the host names that commit, every run leaves it as it is and no read succeeds |
| `GitCompaction.StuckIsReachable` | dynamic-config-git/src/working.rs:253-274 | a run from an empty directory, closed until a compaction fails part-way, that ends there |
| `GitCompaction.DeadForever` | dynamic-config-git/src/fetch.rs:75-86 | a directory that is neither a repository nor empty, and not about to be emptied, is left as it is by every run and no call in it succeeds |
| `GitCompaction.DeadIff` | dynamic-config-git/src/fetch.rs:67-97 | every call is bound to fail in exactly those directories |
| `GitCompaction.CompactionCanKill` | dynamic-config-git/src/working.rs:253-274 | any compaction can end in such a directory |
| `GitCompaction.CreationCanKill` | dynamic-config-git/src/fetch.rs:80-85 | and so can creating a repository, when it fails over a file it leaves |
| `GitCompaction.CanBeLostIff` | dynamic-config-git/src/working.rs:226-274 | a live directory can become such a one in the next call if and only if it is about to be compacted or is still empty |
| `GitWatch.CaughtUp` | dynamic-config-git/src/lib.rs:581-608 | in every run `seen` is the commit last delivered, or the first one answered; a tick that is answered and read leaves the caller at what was named or read, and a failed check or read leaves no trace, so that the change is retried |
| `GitWatch.EndsExactly` | dynamic-config-git/src/lib.rs:594-605 | a tick ends a running watch exactly when a credential is refused for good, whatever was seen, or the callback refuses what the tick delivers |
| `GitWatch.EndedIff` | dynamic-config-git/src/lib.rs:580-614 | a watch has ended exactly when some tick ended it, and the first to do so says why |
| `GitWatch.DeliveriesAdvance` | dynamic-config-git/src/lib.rs:569-615 | on a ref that never revisits a commit the deliveries strictly advance along its history from the moment of the first answered check, each commit at most once and never the one that check named |
| `GitFollow.PollOnce` | dynamic-config-git/src/lib.rs:581-596 | one turn's check, and its read if one is due, as calls on the working directory |
| `GitFollow.Watch` | dynamic-config-git/src/lib.rs:569-615 | the loop over `seen`, with its checks and reads as calls on the working directory, computes the deliveries, the ending and the directory of the composed step functions |
| `GitFollow.DeliveriesAreGenuine` | dynamic-config-git/src/lib.rs:586-596 | across any fetches and compactions, every document delivered is what the tree of the delivered commit holds |
| `GitFollow.DeliversExactly` | dynamic-config-git/src/lib.rs:581-605 | on a closed database a poll delivers exactly when the ref has moved off the commit seen and what the read then finds can be read, and delivers what that commit holds; and it ends the watch exactly on a check refused for good or a refused delivery |
| `GitFollow.WatchIsARun` | dynamic-config-git/src/lib.rs:641-702 | the directory under a watch goes through a run of calls, and its deliveries are those of a run of ticks |
| `GitFollow.WatchDelivers` | dynamic-config-git/src/lib.rs:569-638 | a whole watch on a ref that never revisits a commit: deliveries in history order, each at most once, never the commit of the first answered check, each genuine |
| `HttpExchange.Shared.Write` | dynamic-config-git/src/tls.rs:561-577 | a write extends the body while nothing was sent and is ignored afterwards |
| `HttpExchange.Shared.Send` | dynamic-config-git/src/tls.rs:383-483 | sends once, with the collected body, and keeps the answer or the kind of failure its status stands for |
| `HttpExchange.Shared.Ready` | dynamic-config-git/src/tls.rs:501-533 | a reader's first read sends if need be and takes its own half out |
| `HttpExchange.Shared.Read` | dynamic-config-git/src/tls.rs:535-551 | a read answers with the next bytes of its half or with the shared failure |
| `HttpExchange.SentOnceSharedByBoth` | dynamic-config-git/src/tls.rs:363-577 | for every interleaving of writes and reads the request goes out once if anything is read, with exactly what was written before the first read; reads succeed exactly when the host answered 200 to 299, and each half has then yielded as many of its own bytes as were asked of it; otherwise every read on both halves fails, as timed out exactly on a timed-out silence, as permission denied exactly on 401, as aborted exactly on 500 to 599, and as other otherwise |
| `ConsulWatch.CollectPairs` | dynamic-config-consul/src/lib.rs:1087-1153 | the loop collects the pairs of the entries, or nothing |
| `ConsulWatch.PairsIff` | dynamic-config-consul/src/lib.rs:1101-1152 | there are pairs exactly when every entry is under the prefix and is a folder or text, and every pair is some entry's key and text |
| `ConsulWatch.FoldedIs` | dynamic-config-consul/src/lib.rs:951-979 | for one key the document is the text of the last entry exactly when there are entries and all are text; for a prefix it is the merge of the entries that are no folders, nothing when there are none, and cannot be had exactly when there are more than 512 entries, one is not under the prefix or not text, or the merge fails |
| `ConsulWatch.WatchedDocument` | dynamic-config-consul/src/lib.rs:951-979 | the fold with its own collecting of pairs computes that |
| `ConsulWatch.Trimmed` | dynamic-config-consul/src/lib.rs:1115-1115 | the prefix is compared without the slashes in front of it |
| `ConsulWatch.WatchLoop` | dynamic-config-consul/src/lib.rs:656-769 | the loop over `index`, `last` and `priming` computes the step function's deliveries, queries, failures and ending |
| `ConsulWatch.WatchIsCollapse` | dynamic-config-consul/src/lib.rs:681-766 | while the loop runs its deliveries are the documents the entries hold, with adjacent repeats collapsed and the first dropped; each query carries the index the turns before gave it, 0 or the most recent answered, never lower except 0; and the failed attempts are exactly the turns without a document |
| `ConsulWatch.EndsExactly` | dynamic-config-consul/src/lib.rs:719-765 | every turn ends the watch exactly when a subtree cannot become a document or the callback refuses one it is given |
| `Firestore.DecodeFields` | dynamic-config-firestore/src/value.rs:15-27 | the loop over the members decodes each of them |
| `Firestore.DecimalParses` | dynamic-config-firestore/src/value.rs:45-51 | every 64-bit integer survives its decimal string |
| `Firestore.ParsesExactly` | dynamic-config-firestore/src/value.rs:48-51 | a string is an integer exactly when it is an optional sign and digits and what they spell fits 64 bits |
| `Firestore.OffTheFormat` | dynamic-config-firestore/src/value.rs:30-66 | what is not the tagged encoding becomes null, an empty array or map, or stays as it is |
| `Firestore.DecodeInvertsEncode` | dynamic-config-firestore/src/value.rs:29-67 | decoding the tagged encoding of any nested value gives the plain value, with empty arrays and maps written either way |
| `FirestoreBatch.PathOfIff` | dynamic-config-firestore/src/lib.rs:888-902 | a name leads to a path exactly when it is that path's full name, or lies outside the database and is spelled like the path |
| `FirestoreBatch.HoldReply` | dynamic-config-firestore/src/lib.rs:690-740 | holds every result when each is a well-formed document that was asked for and none comes twice, and refuses only an incomplete reply |
| `FirestoreBatch.PutInOrder` | dynamic-config-firestore/src/lib.rs:742-755 | succeeds exactly when every path was answered, with the answers in call order |
| `FirestoreBatch.Batch` | dynamic-config-firestore/src/lib.rs:674-756 | succeeds exactly on a complete reply (nothing missing, extra, malformed or repeated), and then answers in call order with what the reply held for each path |
| `FirestoreBatch.AcceptedInAnyOrder` | dynamic-config-firestore/src/lib.rs:668-673 | whether a reply is accepted does not depend on its order |
| `FirestoreBatch.OrderDoesNotMatter` | dynamic-config-firestore/src/lib.rs:668-673 | any permutation of a complete reply gives the same list |

## Left out

- The NATS watch loop and the Firestore polling loop: simpler copies of the loops modelled here.
- The one-retry credential logic (`attempt`, `get`, `can_relogin`): two calls in a row of what is modelled as one.
- The set of claimed working directories and the canonical identity of a path: they add a set insertion and removal.
- Wall-clock time, sleeps, timeouts and the deadline watchdog: a timeout is one of the failures a server answer can be.
- The merge of several documents, base64, UTF-8 and JSON decoding, TLS and SSH set-up: answers of libraries, kept abstract.
- Error text, redaction, `describe` and `Debug`: formatting only; a refusal is one value, or a kind where callers tell them apart.
- Fire-and-forget hooks of the Node binding and its engine: hooks are called after the cache write and change no modelled state.
- The Node model drops the engine, so which trees are committed and when is any choice; the 64-bit counters are unbounded.
- `fill_buf` and `consume` of the HTTP readers: reads of any length cover the bytes they expose; a short read or a
  transport failure in the middle of streaming a body is not modelled.
- EtcdServer.ExactlyOnce: needs a header on every message after the first; `ExactlyOnceIff` is the statement without it.
- EtcdServer.UpToDate: needs a message before the first recovery, since a stretch before it can be lost; `HealsAtNextEvent` is the statement without that.
- GitStore.ClosedAlways: needs that a compaction that gives up starts from self-contained packs; `StaysClosedIff` shows that nothing less will do.
- GitCompaction.StaysBounded: needs the marker in a used directory; without it nothing is ever removed and there is no bound, as `ForeignUntouched` and `GrowsWithoutTheMarker` state.
- Keys that are not UTF-8 in an etcd range: they fail the read as a value that is not UTF-8 does, and share its case.
