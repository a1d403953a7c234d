# ReleaseWave, verified

ReleaseWave tracks the latest release of many services. This project models the parts of it that hold
algorithms and protocols, and proves what they promise.

| file | models |
|---|---|
| `DaemonModel.dfy`, `DaemonRuns.dfy`, `DaemonLedger.dfy`, `DaemonLimits.dfy`, `DaemonConverse.dfy`, `DaemonShared.dfy`, `DaemonOrigins.dfy`, `DaemonProcess.dfy`, `Tables.dfy` | the polling daemon as a step relation over memory, the key-value and releases tables, the event log and one program counter per goroutine, with crashes and restarts; what is announced and how often, with every lost change accounted for, and what services that share a name announce; where every announced, stored and recorded field comes from; the runs that break the guarantees once a hypothesis is dropped; the daemon's methods, with goroutines interleaved in any order, refining the steps |
| `StopProtocol.dfy` | the `Start`/`Stop` handshake over a `sync.Once` and two channels |
| `Cache.dfy`, `CacheKeys.dfy`, `CachedProvider.dfy` | the TTL cache, its untyped keys, and cached calls under concurrency |
| `ServiceGraph.dfy`, `GraphExactness.dfy`, `GraphCounting.dfy` | the service graph: index, pairwise edges, unstable sort, for every map iteration order |
| `GoMod.dfy`, `Requirements.dfy` | the two line-oriented dependency parsers |
| `Changelog.dfy`, `Timeline.dfy`, `Calendar.dfy`, `UpgradePlan.dfy`, `WatchTool.dfy` | the changelog windows, the twin timelines and the calendar they read, the upgrade plan and the change detection of `watch_releases` |
| `Tenants.dfy` | tenants and API keys over three tables with UNIQUE, AUTOINCREMENT and CASCADE rules |
| `Registry.dfy`, `Discovery.dfy` | the validity of the service list under its writers, and image names turned into repositories |
| `GoStrings.dfy`, `Sorting.dfy`, `Multisets.dfy`, `Wrappers.dfy` | the pieces of Go's `strings` and `sort` packages, and the sums of multisets, that the others rest on |

Concurrent code is modelled as a state machine whose steps are the source's atomic actions (one critical section,
one SQL statement, one channel operation); theorems are about every run. Loops that fill maps and lists are
methods with invariants, proved against functions or predicates about which the lemmas speak. `sort.Slice` is not
stable, so results are stated for every sorted permutation. Map iteration picks keys arbitrarily.

What the proofs found:

- Announcements are exactly once, between polls, exactly when no crash fell between a change's `SetKV` and its
  `Notify`; each such crash loses one for good. A save that does not know the stored version, after a failed load,
  loses one too. They are at most once, whatever working calls follow, exactly in the runs in which `SetKV` fails
  only for a tag already stored: after any other failure, working calls alone can lead to the announcement of a
  change that was never persisted, and a crash can make a change be announced twice.
- Services that share a name announce each change of what memory saw once, in one life of the daemon, exactly when no
  later reading of the store finds another value than memory holds.
- Memory and disk can disagree between polls exactly when two polled services share a name.
- `stopped` is closed twice, which panics, exactly when `Start` is called more than once.
- Two requests can share a cache key exactly when a part holds a colon; but never across kinds of calls.
- The late delete of an expired cache entry can remove a live one, exactly when the entry was stored again after
  the read that found it expired. That costs a miss, never a wrong answer.
- Names with `|` can make two edges of the service graph into one; the graph is exact exactly when no two pairs of
  services that meet share an edge key. Double counting holds for any names. A service name gets an edge to itself
  exactly when two services share it and a dependency.
- In go.mod, a comment after `require (`, or any other spacing there, hides the whole block. A comment after its `)`
  makes the parser read on as if inside the block: the comment and later directives come out as dependencies. A tab
  after a single `require`, or a `(` in its comment, hides it. A comment right after a version sticks to it.
- In `requirements.txt`, `<` and `>` bounds are dropped altogether, with their names.
- `versions_behind` counts the deployed release itself; a version deployed as `v1` is not matched by a release
  tagged `1`.
- Stopping at the cutoff shows what filtering would, for every cutoff, exactly when the list is newest first.
- Services whose lookup failed lead the upgrade plan.
- `discover --merge` leaves a valid configuration exactly when the old one is valid and every workload that brings in
  a new name is named and, if annotated, annotated with a well-formed repository; nothing checks that.
- `watch_releases` announces all changes exactly when none is from an empty tag; the daemon has no such exception.
- The two timelines show one date column exactly when no later or simultaneous release reads an earlier minute; one
  offset from UTC guarantees that, mixed offsets do not.

## Model

| member | source | states |
|---|---|---|
| DaemonRuns.AtMostOnce | internal/daemon/daemon.go:83-172 | In every run of polls, failed calls, crashes anywhere, restarts and reloads, with SetKV failing only for a tag already stored, a service's notified (old, new) pairs are a subsequence of the adjacent changes of its persisted version. |
| DaemonRuns.WorkingSavesHold | internal/daemon/daemon.go:133-137 | Runs in which SetKV never fails meet that hypothesis. |
| DaemonLedger.ExactlyOnceIff | internal/daemon/daemon.go:83-172 | With working GetKV calls, and SetKV as above: between polls, announcements plus the crashes that fell between a change's SetKV and its Notify number the persisted changes, and announcements are exactly those changes if and only if there was no such crash. |
| DaemonLedger.AnnouncedOrLost | internal/daemon/daemon.go:83-172 | Also with failing loads: whenever nothing is pending, announcements, losing crashes and saves that did not know the stored version add up to the persisted changes, and announcements are those changes iff nothing was lost. |
| DaemonLedger.NoBlindSaves | internal/daemon/daemon.go:83-137 | With working loads every save knows the stored version. |
| DaemonOrigins.AnnouncementsAreAnswers | internal/daemon/daemon.go:110-172 | In every run, an announcement is of a service's name and the tag of an answer to it, and its old version is a different tag, answered to a service of that name or stored from the beginning. |
| DaemonOrigins.RowsAreAnswers | internal/daemon/daemon.go:110-148 | In every run, a new row of the releases table has the name and platform of a polled service, and the tag and URL of one and the same answer to it. |
| DaemonOrigins.StoredAreAnswers | internal/daemon/daemon.go:133-137 | In every run, what the key-value table holds for a name was there from the beginning or was answered to a service of that name. |
| DaemonRuns.ExactAnnouncements | internal/daemon/daemon.go:96-172 | Without crashes, under every interleaving, what was announced is always a prefix of the changes of the observed tags and is all of them between polls; announcements chain, never repeat a version, and a first sighting brings none. |
| DaemonShared.SharedExactIff | internal/daemon/daemon.go:83-172 | For a name that any number of polled services share, in one life of the daemon, under every interleaving and with any failing calls: announcements and the changes that reading the store made are at every moment a sub-multiset of the changes of the values seen under the name, and all of them between polls; so announcements are exactly the changes if and only if no reading found another value than memory held. |
| DaemonShared.SharedAnnouncements | internal/daemon/daemon.go:83-172 | A daemon that reads its store once announces each change under a shared name exactly once between polls. |
| DaemonRuns.MemoryAndDiskAgree | internal/daemon/daemon.go:83-148 | Between polls, with working store calls, memory and the key-value table hold the same for a name; after a successful check both hold its tag, and the releases table has exactly one row for it. |
| DaemonModel.ChangesChain | internal/daemon/daemon.go:150-168 | The adjacent changes of a history chain from its first value to its last and none is from a value to itself. |
| DaemonLimits.AgreementIff | internal/daemon/daemon.go:128-137 | Memory and disk agree between polls of all runs with working store calls if and only if no two polled services share a name. |
| DaemonLimits.Disagreement | internal/daemon/daemon.go:128-137 | The schedule that breaks agreement: two goroutines of one name swap in one order and save in the other. |
| DaemonConverse.AtMostOnceIff | internal/daemon/daemon.go:83-172 | A run, left at any point and continued with working calls and with or without crashes, always keeps announcements at most once if and only if SetKV fails in it only for a tag already stored. |
| DaemonConverse.FailedSaveBreaks | internal/daemon/daemon.go:128-172 | In any run up to a SetKV that would change the stored tag, of a first sighting as well: if that call fails, working calls without a crash lead to announcements that are no subsequence of the persisted changes. |
| DaemonConverse.FailAndTell | internal/daemon/daemon.go:128-172 | After a failed SetKV, the next poll with working calls announces a change from the tag that was not saved to any newer one, while only the newer one is persisted. |
| DaemonLimits.FailedSaveAnnouncesTwice | internal/daemon/daemon.go:133-172 | In any run up to the SetKV of a change from a version that memory knew: if that call fails, then crashing after Notify and restarting with nothing but working calls announces the change twice, while it is persisted once. |
| DaemonLimits.CrashLosesAnnouncement | internal/daemon/daemon.go:133-172 | In any run with a change between its SetKV and its Notify, after a crash the restarted daemon, with working calls and the same release, finishes its check without announcing the change. |
| DaemonLimits.PendingIsReachable | internal/daemon/daemon.go:83-137 | From any stored version, a different release leads to both situations. |
| DaemonProcess.VersionKeyInjective | internal/daemon/daemon.go:88-135 | Different names have different keys in the key-value table. |
| DaemonModel.ValidServicesSoleWriter | internal/config/config.go:112-129 | Service lists that Validate accepts give every service a name of its own, and a service is polled exactly when its repository parses and its platform has a provider. |
| DaemonModel.WatchIs | internal/config/config.go:248-271 | A service given as host/owner/repository is polled exactly when its platform has a provider, under its own name and with that owner and repository. |
| DaemonProcess.Daemon.constructor | internal/daemon/daemon.go:32-43 | A new daemon for a service list and providers knows nothing and refines the step that starts a process. |
| DaemonProcess.Daemon.FetchLatest | internal/daemon/daemon.go:110-126 | The goroutine goes on with a release, or ends when the repository, the provider or the call fails; one step. |
| DaemonProcess.Daemon.SwapKnown | internal/daemon/daemon.go:128-131 | The critical section is one step: it returns the previous value and stores the tag. |
| DaemonProcess.Daemon.Persist | internal/daemon/daemon.go:133-137 | Writes the tag under the version key, or nothing when the call fails or there is no store; one step. |
| DaemonProcess.Daemon.RecordRow | internal/daemon/daemon.go:138-148 | Inserts the row of the service's name, the tag, its platform and the URL unless one of that name and tag is there, or nothing when the call fails; one step. |
| DaemonProcess.Daemon.Notify | internal/daemon/daemon.go:150-172 | Notifies exactly when a previous version was known and differs; one step. |
| DaemonProcess.Daemon.CheckService | internal/daemon/daemon.go:110-174 | One goroutine run without interruption takes the model through the steps of its branch. |
| DaemonProcess.Daemon.HandleRelease | internal/daemon/daemon.go:128-173 | From a fetched release to the end of the check: swap, save, record, notify, in that order. |
| DaemonProcess.Daemon.LoadNext | internal/daemon/daemon.go:87-93 | Loading one service takes the stored value into memory, if the call succeeds and there is one; one step. |
| DaemonProcess.Daemon.LoadKnownVersions | internal/daemon/daemon.go:83-94 | The loop over the services is a run of load steps of the model. |
| DaemonProcess.Daemon.StepGoroutine | internal/daemon/daemon.go:102-105 | Whatever goroutine is scheduled next takes the next atomic step of its check. |
| DaemonProcess.Daemon.Interleave | internal/daemon/daemon.go:102-105 | Such a step extends the run of the poll and brings it nearer to its end. |
| DaemonProcess.Daemon.Poll | internal/daemon/daemon.go:96-108 | A poll starts a goroutine per service, their steps interleave in any order, and it ends when all are done: a run of the model. |
| DaemonProcess.Daemon.RunOnce | internal/daemon/daemon.go:78-81 | Loading and then polling is a run of the model, so every theorem about runs applies. |
| Tables.RecordedOnce | internal/store/store.go:61-110 | Recording a release leaves exactly one row for its service and tag, touches no other count and removes nothing. |
| Tables.Store.RecordRelease | internal/store/store.go:103-110 | INSERT OR IGNORE under UNIQUE(service, tag). |
| Tables.Store.SetKV | internal/store/store.go:161-168 | Sets one key and leaves the other table alone. |
| Tables.Store.GetKV | internal/store/store.go:148-158 | Finds exactly what is stored. |
| StopProtocol.StopMeansStopped | internal/daemon/daemon.go:46-75 | With one Start and any number of Stop calls, neither channel is closed twice, and once any Stop has returned, stopCh was closed once, Start has returned once, every check that was ever started has finished, and no continuation holds a step of Start. |
| StopProtocol.ChecksAreAwaited | internal/daemon/daemon.go:96-108 | Over every run with any number of threads in Start: the checks started are those finished and, inside a poll, those running; and they number one per service for every poll, less those the current poll has yet to start. |
| StopProtocol.LeavesOnlyWhenTold | internal/daemon/daemon.go:46-75 | Start leaves its loop only after the context was cancelled or stopCh closed, which happens at most once and before any Stop waits. |
| StopProtocol.AnyNumberOfTicks | internal/daemon/daemon.go:46-69 | Start polls at once and again after every tick, however many come. |
| StopProtocol.StopCanReturn | internal/daemon/daemon.go:46-75 | After any number of ticks Stop can be called, and then both it and Start can run to their ends. |
| StopProtocol.NoDeadlock | internal/daemon/daemon.go:46-75 | Once Start has been called, a Stop that has not returned is never stuck: some thread can move other than by a tick. |
| StopProtocol.WorkEnds | internal/daemon/daemon.go:46-75 | Between ticks and new calls every run is finite: the steps that the threads have left bound it. |
| StopProtocol.AllStopsReturn | internal/daemon/daemon.go:46-75 | So from every reachable state after Start was called, the threads' own steps, without another tick, can bring every Stop to return. |
| StopProtocol.PanicFreeIff | internal/daemon/daemon.go:46-75 | No run panics on a closed channel if and only if at most one thread calls Start. |
| CachedProvider.BoundedStaleness | internal/provider/cached.go:23-73 | Over every interleaving of cached calls, deletes and clears under a non-decreasing clock, each value returned was answered to that very invocation between its begin and its return, or was stored under its key, after an answer to a call with that key, at most one TTL before the expiry check within the invocation; an error is returned only to an invocation without an answer; no invocation returns or is answered twice, and no type assertion fails. |
| CachedProvider.FreshAnswers | internal/provider/cached.go:28-33 | Every fresh result has an answer of its own, within its invocation, that no other result shares. |
| CachedProvider.ResultFits | internal/provider/cached.go:23-73 | Every result is of the kind of value its call asks for. |
| CachedProvider.CheckDecides | internal/cache/cache.go:31-45 | In every reachable state, a call that read a value stored at time t returns that value if its check comes at most one TTL after t, and otherwise goes on to delete it. |
| CachedProvider.NothingToCheck | internal/provider/cached.go:23-33 | A call that found nothing stored under its key asks the provider. |
| CachedProvider.HitAnswersSameRequest | internal/provider/cached.go:23-73 | When the parts of all requests but the last are colon-free, every hit is an earlier answer to the very same request. |
| CachedProvider.FoundTypeFits | internal/provider/cached.go:25-66 | An entry found under a call's key has the type the call asserts. |
| CachedProvider.EvictDropsLiveIff | internal/cache/cache.go:31-59 | In every reachable state, the delete after an expired read removes a live entry if and only if the last change of the key is a store that came after that read and is not expired. |
| CachedProvider.FreshEntryCanBeDeleted | internal/cache/cache.go:31-59 | A schedule in which the racy delete removes an entry stored that moment; the value is returned all the same and the next caller asks the provider. |
| CachedProvider.StaleIsReachable | internal/cache/cache.go:31-52 | From the start, one call and the passing of its TTL lead to the expired entry that this schedule begins with, for any request and TTL. |
| CachedProvider.Provider.Fetch | internal/provider/cached.go:23-73 | One call on its own: an entry whose expiry time has not passed is returned untouched; otherwise the entry is dropped and a successful answer stored, to expire one TTL later, and returned. |
| Cache.Cache.constructor | internal/cache/cache.go:23-28 | A new cache is empty. |
| Cache.Cache.Get | internal/cache/cache.go:31-45 | Answers the entry as long as the time is not past its expiry time, and deletes it after that. |
| Cache.Cache.Set | internal/cache/cache.go:48-52 | Stores one entry to expire one TTL from now. |
| Cache.Cache.Delete | internal/cache/cache.go:55-59 | Removes one key. |
| Cache.Cache.Clear | internal/cache/cache.go:62-66 | Removes all keys. |
| Cache.GetIsHistory | internal/cache/cache.go:31-66 | Over every run of sets, gets, deletes and clears, a get at a time answers a value exactly when it was set under the key at most one TTL before and nothing has overridden it since. |
| CacheKeys.Key | internal/cache/cache.go:69-78 | The loop joins the parts with ':'. |
| CacheKeys.KeyText | internal/provider/cached.go:24-63 | The text of the key of each kind of call. |
| CacheKeys.KeysAreTyped | internal/provider/cached.go:24-63 | Requests with one key have the same provider and kind, whatever owner, repo and path are. |
| CacheKeys.PlainKeysInjective | internal/provider/cached.go:24-63 | Among requests whose parts but the last are colon-free, the key determines the request. |
| CacheKeys.UnambiguousIff | internal/provider/cached.go:24-63 | No other request shares a request's key if and only if its owner, repo and path are colon-free. |
| ServiceGraph.BuildIndex | internal/mcpserver/tools_extended.go:915-924 | For every order of the maps, the index lists for each dependency exactly its users, in service order, and has no other keys. |
| ServiceGraph.AddUses | internal/mcpserver/tools_extended.go:917-924 | One service's dependencies are entered whatever their iteration order. |
| ServiceGraph.LinkPair | internal/mcpserver/tools_extended.go:945-959 | The innermost body orders the two names and appends to their edge or opens it. |
| ServiceGraph.LinkRow | internal/mcpserver/tools_extended.go:944-960 | The innermost loop links one user with all later ones. |
| ServiceGraph.LinkUsers | internal/mcpserver/tools_extended.go:942-961 | The two inner loops link every two positions of a dependency's users, in order. |
| ServiceGraph.LinkAll | internal/mcpserver/tools_extended.go:926-961 | The edge map is the replay of all links, for the visited order of the shared dependencies, each visited once. |
| ServiceGraph.ListEdges | internal/mcpserver/tools_extended.go:963-970 | Every edge is listed once with its dependencies sorted, and an edge never has fewer dependencies than one listed after it. |
| ServiceGraph.Graph | internal/mcpserver/tools_extended.go:915-970 | The whole computation yields an outcome of the relation that the theorems are about. |
| ServiceGraph.MostSharedFirst | internal/mcpserver/tools_extended.go:968-970 | In every answer, an edge has at least as many dependencies as every later one. |
| GraphCounting.MoreInCommonFirst | internal/mcpserver/tools_extended.go:915-970 | For distinct names and keys apart, two services with more dependencies in common than two others are listed before them. |
| GraphExactness.ExactIff | internal/mcpserver/tools_extended.go:915-970 | For distinct names, whatever the iteration orders and the unstable sort: no two edges for one pair; and the edges are exactly those of the pairs whose dependency sets meet, each listing the sorted, duplicate-free intersection, if and only if no two such pairs share an edge key. |
| GraphExactness.PipeFreeApart | internal/mcpserver/tools_extended.go:945-949 | Names without '\|' never make two pairs share a key. |
| GraphExactness.PipesMergeEdges | internal/mcpserver/tools_extended.go:949-959 | With "a\|b", "c", "a" and "b\|c" meeting in two pairs, no outcome is exact. |
| GraphExactness.SelfEdgeIff | internal/mcpserver/tools_extended.go:943-959 | For names without '\|', some edge joins a name to itself if and only if two services share a name and a dependency. |
| GraphExactness.LogIs | internal/mcpserver/tools_extended.go:942-961 | The links made are, for each visited dependency, every two services that have it, in string order. |
| GraphExactness.UsersAre | internal/mcpserver/tools_extended.go:917-924 | A service is listed for a dependency exactly when it has it. |
| GraphCounting.IndexDoubleCount | internal/mcpserver/tools_extended.go:915-990 | The sizes of the index lists add up to the sum of all dependency counts. |
| GraphCounting.EdgeDoubleCount | internal/mcpserver/tools_extended.go:926-990 | The lengths of all shared-dependency lists add up to the sum over dependencies of n(n-1)/2 for n users, for any service names. |
| GoMod.ParseGoMod | internal/mcpserver/tools_extended.go:1008-1034 | The loop with its require flag computes the run of the line automaton over the split content. |
| GoMod.ParsePrint | internal/mcpserver/tools_extended.go:1008-1034 | Printing any document of directives, blocks and other lines, with any white space and comments, and parsing it gives the pairs the parser sees in its items, the last of a name winning, as long as blocks that open also close. |
| GoMod.RoundTrip | internal/mcpserver/tools_extended.go:1008-1034 | Every map laid out as blocks, single lines or a mix, with blank lines, indentation, comments and other directives, is parsed back. |
| GoMod.ReadIff | internal/mcpserver/tools_extended.go:1014-1032 | Exactly which items are read as meant: a directive with a space after its keyword, no '(' in its comment and the comment set off; a block whose head is exactly `require (` and whose ')' is bare, with a comment attached to a version only where a later line requires the same name. |
| GoMod.ReadsOn | internal/mcpserver/tools_extended.go:1014-1026 | After a commented ')' of a block that opened, the comment's line and everything after it is read as if inside the block. |
| GoMod.DirectiveMisread | internal/mcpserver/tools_extended.go:1022-1026 | So a directive after such a block comes out as a dependency named like its keyword. |
| GoMod.StaysInside | internal/mcpserver/tools_extended.go:1018-1021 | Inside a block only a bare ')' leaves it. |
| GoMod.BlockRun | internal/mcpserver/tools_extended.go:1014-1026 | A block that opens enters its requirements and is left by a bare ')', else its last line is read as a requirement; a block that does not open does nothing. |
| GoMod.SingleStep | internal/mcpserver/tools_extended.go:1027-1032 | A single requirement is entered exactly when a space follows the keyword and its comment has no '(', with whatever sticks to its version. |
| GoMod.EnterIsLast | internal/mcpserver/tools_extended.go:1024-1030 | Entering pairs keeps the last version of each name and no other names. |
| Requirements.ParseRequirements | internal/mcpserver/tools_extended.go:1051-1069 | The loop computes the run of its line step over the split content. |
| GoStrings.SpacesAre | internal/mcpserver/tools_extended.go:1052-1053 | What counts as white space when lines are trimmed, by code point. |
| Requirements.FindClause | internal/mcpserver/tools_extended.go:1058-1063 | The inner loop with its break splits the line at the first separator, in order of preference, that occurs past the start. |
| Requirements.ClauseAtIs | internal/mcpserver/tools_extended.go:1058-1063 | For any line: the clause starts at the first hit of the first of `==`, `>=`, `<=`, `~=`, `!=` that has one past the start. |
| Requirements.IgnoredLine | internal/mcpserver/tools_extended.go:1052-1056 | A blank line or a comment, indented or not, changes nothing wherever it stands in a file. |
| Requirements.MentionIff | internal/mcpserver/tools_extended.go:1052-1067 | For any line: it counts as a name without a version exactly when it has none of the characters `=<>~!` and is neither blank nor a comment. |
| Requirements.FinalValue | internal/mcpserver/tools_extended.go:1051-1069 | For any content: a name is present iff some line pins or mentions it, is "*" iff no line pins it, and otherwise has the clause of the last line that does. |
| Requirements.EntriesRebuildLines | internal/mcpserver/tools_extended.go:1059-1067 | For any content, every entry's name and clause together are some line of it, trimmed. |
| Requirements.ReadIs | internal/mcpserver/tools_extended.go:1053-1067 | How a line of one clause is read, for all eight operators and any version without '=': split right after the name, except that `<` and `>` lines are dropped. |
| Requirements.RoundTrip | internal/mcpserver/tools_extended.go:1051-1069 | A file of one-clause lines, printed and parsed, gives every name the value its lines ask for. |
| Changelog.ChangelogBetween | internal/mcpserver/tools_extended.go:355-382 | The loop returns the slice from the first `to` through the first `from`. |
| Changelog.DiffChangelog | internal/mcpserver/tools_extended.go:1141-1166 | The loop returns the slice from the latest release through the first one matching the deployed version. |
| Changelog.ReleaseDiff | internal/mcpserver/tools_extended.go:1137-1174 | When the diff lists a changelog, reports up to date, or reports an unknown deployment. |
| Changelog.PrintDiff | cmd/releasewave/diff.go:125-141 | The command prints exactly the releases of the same window. |
| Changelog.PrintedShows | cmd/releasewave/diff.go:125-141 | A printed line has the release's tag and date, and its name unless that is empty or equals the tag. |
| Changelog.WindowIs | internal/mcpserver/tools_extended.go:355-382 | A window is contiguous, begins at the first upper end, ends at the first lower end or at the end of the list, and is empty iff the upper end is absent or comes later. |
| Changelog.WindowsCompose | internal/mcpserver/tools_extended.go:355-382 | The window from a to c is the one from b to c followed by the one from a to b without its first entry. |
| Changelog.ComposesIff | internal/mcpserver/tools_extended.go:355-382 | With b reached from c, windows compose if and only if b does not come after a. |
| Changelog.StopsIff | internal/mcpserver/tools_extended.go:1163-1165 | The three tests of a diff match exactly the deployed version and the same with a leading `v`. |
| GoStrings.TrimPrefixIs | cmd/releasewave/diff.go:136-139 | Trimming a prefix undoes prepending it, and shortens a string only by the prefix. |
| Changelog.DiffIsChangelog | cmd/releasewave/diff.go:125-141 | A diff is the changelog window ending at the deployed version as the releases are tagged. |
| Changelog.LeadingVOneWay | internal/mcpserver/tools_extended.go:1163-1165 | A version deployed with a leading `v` is not matched by the bare tag: the window runs to the end. |
| Changelog.BehindCountsDeployed | internal/mcpserver/tools_extended.go:1163-1168 | The deployed release is counted among the versions it is behind. |
| Timeline.FormatOrder | internal/mcpserver/tools_extended.go:481-497 | For four-digit years, formatted dates compare as strings like the readings truncated to the minute, and are equal exactly within one minute. |
| Timeline.FormatReads | internal/mcpserver/tools_extended.go:481 | A formatted date has the separators of the layout and reads back, number by number, as its year, month, day, hour and minute. |
| Timeline.Collect | internal/mcpserver/tools_extended.go:475-488 | The loop with its break appends the leading recent releases, which are all recent ones when the list is newest first. |
| Timeline.LeadingShows | cmd/releasewave/timeline.go:74-87 | What a list contributes are its releases in order, with their dates, tags, names and URLs under the service's name, down to the first one older than the cutoff. |
| Timeline.Gather | cmd/releasewave/timeline.go:44-90 | One goroutine per service, each appending under the mutex in any interleaving: what comes together is a permutation of what all services contribute. |
| Timeline.CommandNewestFirst | cmd/releasewave/timeline.go:93-95 | The command lists no release before a later one. |
| Timeline.ToolNewestFirst | internal/mcpserver/tools_extended.go:494-497 | The tool lists no earlier minute before a later one. |
| Timeline.BreakIsFilterIff | cmd/releasewave/timeline.go:74-87 | Breaking at the cutoff is filtering, for every cutoff, if and only if the list is newest first. |
| Timeline.SameColumn | cmd/releasewave/timeline.go:44-95 | Whatever order the goroutines appended in and both unstable sorts left, the tool and the command show the same date column where the clocks agree. |
| Timeline.SameTimeline | cmd/releasewave/timeline.go:44-95 | From the services' release lists to the output: for any two such permutations and any outcomes of the two sorts, the date columns are the same where the clocks agree. |
| Timeline.SameColumnIff | cmd/releasewave/timeline.go:93-117 | The columns are equal for all outcomes of both sorts if and only if no later or simultaneous release reads an earlier minute. |
| Calendar.NanosOrder | cmd/releasewave/timeline.go:93-117 | Gregorian readings order by their fields as they do by counted nanoseconds. |
| Calendar.ClockTicks | cmd/releasewave/timeline.go:93-117 | One nanosecond later, over every carry to the next second, minute, hour, day, month and year, the counted nanoseconds are one more. |
| Calendar.YearsCounted | cmd/releasewave/timeline.go:93-117 | The days before a year are 365 for each and one for every leap year of the Gregorian rule. |
| Calendar.MonthsCounted | cmd/releasewave/timeline.go:93-117 | The days before a month, in closed form. |
| Calendar.FixedOffset | cmd/releasewave/timeline.go:93-117 | Times read at one offset from UTC order as their readings do. |
| Calendar.OneOffsetSameDates | cmd/releasewave/timeline.go:93-117 | At one offset the tool and the command show one date column, whatever their sorts do. |
| Timeline.OneZoneClocksAgree | cmd/releasewave/timeline.go:93-95 | Readings in the order of the instants never read an earlier minute later. |
| Timeline.DateSortRefines | internal/mcpserver/tools_extended.go:494-497 | Where readings order as instants do, as at one offset, the string sort is a time sort up to ties within a minute. |
| UpgradePlan.PrecedesIsOrder | internal/mcpserver/tools_extended.go:728-737 | The comparator is a strict weak order. |
| UpgradePlan.Plan | internal/mcpserver/tools_extended.go:660-737 | Goroutines filling their own slots in any order, then sorting, give a sorted permutation of the entries. |
| UpgradePlan.EntryFacts | internal/mcpserver/tools_extended.go:665-723 | An entry has its service's name, the release's tag and date and the deployed version; low means up to date, critical a security release, medium a release of the last week, high any other; an entry without a priority is an error without a date; and up to date means deployed as tagged or without the tag's `v`. |
| UpgradePlan.PlanOrder | internal/mcpserver/tools_extended.go:728-737 | In every plan failed services lead, then come critical, high and medium ones, every up-to-date service comes after every other, and dates ascend within a priority. |
| WatchTool.EachChangeOnce | internal/mcpserver/tools_extended.go:777-826 | Over every interleaving of overlapping calls, duplicate names included, each change of a service's entry in mutex order is notified at most once, and exactly once when nothing is pending, except from the empty tag. |
| WatchTool.AllNotifiedIff | internal/mcpserver/tools_extended.go:806-826 | Over every run with nothing pending, as many notifications were sent for a service as its entry changed if and only if no change was from the empty tag. |
| WatchTool.SentIsDue | internal/mcpserver/tools_extended.go:806-826 | What was sent for a service is exactly its changes with a non-empty old version. |
| WatchTool.LogsAreActions | internal/mcpserver/tools_extended.go:806-826 | The swaps and notifications that these statements speak of are the ones among the actions of the run, in their order. |
| Tenants.Store.constructor | internal/tenant/tenant.go:30-64 | A new database is empty. |
| Tenants.Store.Create | internal/tenant/tenant.go:66-79 | Inserts a tenant under the next id unless the name is taken. |
| Tenants.Store.Get | internal/tenant/tenant.go:82-94 | Finds a tenant by name. |
| Tenants.Store.Delete | internal/tenant/tenant.go:116-129 | Deletes a tenant and, by cascade, its services and keys; fails when there is none. |
| Tenants.Store.AddService | internal/tenant/tenant.go:132-138 | Inserts a service row unless present; fails for a missing tenant only. |
| Tenants.Store.ListServices | internal/tenant/tenant.go:141-160 | Lists exactly the tenant's services with their repositories, each once. |
| Tenants.ServicesAreHistory | internal/tenant/tenant.go:116-138 | Over every run, a tenant has a service with a repository exactly when it was added so and the tenant not deleted since. |
| Tenants.Store.Generate | internal/tenant/apikey.go:52-81 | Makes a raw key of 32 random bytes and stores its hash and prefix under the next id, unless the tenant is missing or the hash is taken. |
| Tenants.Store.Validate | internal/tenant/apikey.go:84-97 | Answers the tenant of the row with the key's hash. |
| Tenants.Store.ListForTenant | internal/tenant/apikey.go:100-119 | Lists exactly the tenant's keys, one row each, none before one that was created later. |
| Tenants.ListedByAge | internal/tenant/apikey.go:100-119 | Over every run with a clock that does not go back, such a listing has the keys in the reverse order of their generation, but for keys of one creation time. |
| Tenants.KeysAreMade | internal/tenant/apikey.go:52-81 | Over every run, each row was generated for its tenant, at its creation time, from a raw key of its hash and prefix. |
| Tenants.HexReads | internal/tenant/apikey.go:52-58 | Every two digits of a key's text spell one of its random bytes. |
| Tenants.RawKeyInjective | internal/tenant/apikey.go:52-58 | Different random bytes make different keys. |
| Tenants.Store.Revoke | internal/tenant/apikey.go:122-135 | Deletes a key by id; fails when there is none. |
| Tenants.ValidateIsHistory | internal/tenant/apikey.go:84-97 | Over every run, a raw key that collides with no generated one validates for t if and only if it was generated for t and since then neither revoked nor lost to t's deletion. |
| Tenants.ValidateIff | internal/tenant/apikey.go:84-97 | Without any assumption on the hash: the same up to keys with an equal hash. |
| Tenants.RunSound | internal/tenant/tenant.go:38-64 | After every run every key and service row points at a live tenant, and ids are unique. |
| Tenants.RunIdsAscend | internal/tenant/apikey.go:40-48 | Over every run tenants and keys get strictly larger ids, so none is ever reused. |
| Tenants.GetIsHistory | internal/tenant/tenant.go:66-129 | Over every run, a name looks up a tenant exactly when it was created under it and not deleted since. |
| Tenants.ValidatesForLive | internal/tenant/apikey.go:84-97 | A key that validates does so for a tenant that is alive. |
| Registry.Validate | internal/config/config.go:112-129 | Accepts exactly the lists with non-empty unique names and host/owner/repo forms, and otherwise names the first offending index and its first broken rule. |
| Registry.ParseJoined | internal/config/config.go:248-271 | Parsing host/owner/repo gives back owner and repo, and the platform of the host. |
| Registry.ParsesIff | internal/config/config.go:248-253 | A repository can be parsed, and passes the format check, exactly when it holds two slashes or more. |
| Registry.ParsedParts | internal/config/config.go:255-271 | From host/owner/repository with any further path come owner and repository as they are, and the platform "github" or "gitlab" if the host contains it, else the host. |
| Registry.ServiceList.constructor | internal/api/api.go:18-20 | The handler works on the list it is given. |
| Registry.ServiceList.AddService | internal/api/api.go:178-207 | Answers bad request for an empty name or fewer than two slashes, conflict for a name in use, else appends the service; otherwise changes nothing. |
| Registry.ServiceList.DeleteService | internal/web/web.go:142-160 | Removes a service by name, or answers not found and changes nothing. |
| Registry.WithoutIsFilter | internal/api/api.go:215-223 | What a delete keeps is every entry of another name. |
| Registry.RunKeepsValid | internal/api/api.go:165-232 | Every run of adds and deletes keeps a valid list valid. |
| Registry.ListIsHistory | internal/api/api.go:165-232 | Over every run of requests, the list has an entry exactly when it was there from the beginning, or was added under a free name with a well-formed repository, and its name was not deleted since. |
| Registry.AddThenDelete | internal/web/web.go:89-160 | A successful add followed by a delete restores the list. |
| Registry.MergeIntoConfig | cmd/releasewave/discover.go:94-108 | The merge loop computes the merged list and counts what it added. |
| Registry.MergeProperties | cmd/releasewave/discover.go:94-108 | Merging keeps the old list as a prefix, keeps names unique, covers every discovered name and adds no other. |
| Registry.SecondMergeAddsNothing | cmd/releasewave/discover.go:94-113 | A second merge of the same services changes nothing. |
| Registry.MergeValidIff | cmd/releasewave/discover.go:94-108 | The merged list is valid if and only if the old one is and every entry that brings in a new name is. |
| Discovery.TagAndDigestUndone | internal/discovery/discovery.go:156-170 | Stripping undoes appending a tag, a digest or both to a bare image name. |
| Discovery.BareNameIff | internal/discovery/discovery.go:156-170 | Stripping leaves a name alone exactly when it has no '@' and no colon in its last path part. |
| Discovery.InferredRepoParses | internal/discovery/discovery.go:130-153 | For every image, a non-empty inferred repository passes the format check and parses to github or gitlab with the image's second and third path parts. |
| Discovery.ImageRepository | internal/discovery/discovery.go:130-170 | The repository of an image host/owner/name, with a tag or without: owner and name at the source host that goes with the registry, or none. |
| Discovery.DiscoverFromWorkload | internal/discovery/discovery.go:94-126 | A workload yields its annotated service, or one entry per image that a repository is inferred from. |
| Discovery.WorkloadIs | internal/discovery/discovery.go:94-126 | The name is the annotated one if there is one; an annotated repository makes one service without a registry; else exactly the images with a repository make a service each, with the bare image name as registry. |
| Discovery.DiscoverFromImages | internal/discovery/discovery.go:108-125 | One entry per image with an inferred repository, in order. |
| Discovery.Absorb | internal/discovery/discovery.go:66-71 | The inner loop adds the entries whose names are new, and remembers their names. |
| Discovery.Scan | internal/discovery/discovery.go:64-72 | The loop over one kind of workload merges all their entries. |
| Discovery.Discover | internal/discovery/discovery.go:48-91 | Deployments before stateful sets, the first of each name wins, and names come out distinct. |
| Discovery.DiscoverMergeValidIff | cmd/releasewave/discover.go:94-108 | After discovery and merging the configuration is valid if and only if the old one is and every workload that is the first to bring in a new name has a non-empty name and, if annotated, a well-formed repository. |
| Discovery.DiscoverMergeKeepsValid | cmd/releasewave/discover.go:94-108 | Merging what discovery found keeps the configuration valid, for workloads with a name and a well-formed annotation. |
| Discovery.AnnotatedRepoCanBreakConfig | internal/discovery/discovery.go:96-105 | An annotated repository without slashes makes the merged configuration invalid. |

## Left out

- HTTP handlers and clients, JSON and YAML, templates, commands, output formatting, logging and metrics; a provider's answer is an arbitrary value or an error.
- Kubernetes, registry and vulnerability clients; what runs in the cluster is an input.
- SQLite itself: each statement is one atomic operation, with foreign keys on. AUTOINCREMENT's limit of 2^63 - 1 and 64-bit overflow of ids are not modelled, and neither are timestamp columns, but for the keys' creation time.
- Row order of `GetHistory` and `List`, which rests on columns left out; `ListServices` has no order.
- The race between the two mutexes that guard one configuration: list changes are atomic, or come from one handler.
- Cryptography and random bytes: the hash is an arbitrary function, and random bytes are inputs. A failing random source leaves the tables alone and is not modelled.
- `package.json` parsing, configuration defaults and environment overrides, webhook payloads and the truncation of release notes.
- `fetchDashboardData`: its fan-out into indexed slots is the one proved for the upgrade plan, and its counts are easy.
- Invalid UTF-8: strings are sequences of Unicode scalar values, whose order is that of their UTF-8 bytes.
- Ticker fairness and real time: clocks are non-decreasing integers, or hours as reals for ages, and ticks are nondeterministic.
- CachedProvider.Provider.Fetch: one call without interference; interleavings are covered by the state machine of the same module.
- StopProtocol.StopMeansStopped: the handshake is modelled on values, since its state is channels and a Once shared by threads; that every Stop returns under a fair scheduler rests on StopProtocol.NoDeadlock and StopProtocol.WorkEnds, fairness itself being left out.
- UpgradePlan.EntryFacts: lower-casing is an arbitrary function of strings, and the text of the suggested action is not modelled.
- Calendar.FixedOffset: one offset from UTC; a zone that changes its offset, and the zone database, are not part of this model.
- GoMod.RoundTrip: for documents whose items are all visible, which GoMod.ReadIff shows to be what the parser demands; quoted module paths, names or versions that hold `//` and block comments are not laid out.
- Requirements.RoundTrip: lines without inner white space, so no environment markers and no trailing comments; what the parser does with any other line is in Requirements.FinalValue.
- WatchTool.EachChangeOnce: with a notifier configured; a failing Notify counts as made, since the program only logs it.
- DaemonProcess.Daemon.Notify: a failing Notify counts as made here too; delivery beyond the call is not part of this model.
- DaemonLimits.FailedSaveAnnouncesTwice: for a change from a version that memory knew, since without one nothing is announced by that check; what a failed save of a first sighting leads to is in DaemonConverse.FailedSaveBreaks.
- DaemonShared.SharedExactIff: the order of announcements under a shared name is not stated.
