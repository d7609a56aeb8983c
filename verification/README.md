# Patchlight verification model

Patchlight tracks the CVEs that affect an inventory of software. This project models the stateful parts behind its
I/O in Dafny and proves what they promise, over all inputs and over whole runs:

- the finding lifecycle engine over its two stores (`Core`, `Store`, `Reconcile`, `ReconcileLaws`, `Lifecycle`,
  `Statuses`);
- the CPE parser, printer and name normaliser (`Cpe`, `Normalize`);
- the collector, and the product as a whole: feed-driven scans over the engine (`Patchlight`, `FeedRuns`);
- the notification dispatcher with its severity sort, and its glue to the engine (`SeveritySort`, `Notify`, `Bridge`);
- the ULID encoder (`Ulid`), the evidence sanitiser (`Evidence`), the EPSS paged cache (`Epss`);
- the scheduler's protocol and its backoff (`Scheduler`, `Backoff`);
- the inventory with its add paths, removal, restart and SBOM import (`Inventory`);
- dictionary and version-evidence selection (`Dictionary`).

Classes follow the source's mutable objects (`FindingStore`, `Engine`, `Dispatcher`, `Provider`, `Server`). Each method
is proved against a function of the old state, and the theorems are lemmas about those functions and about runs of
them. Where a method and its specification call the same small function (a severity's rank, a missing field, a secret
key, the merge of a known finding), a lemma says in plain terms what that function does. `Prelude` holds the shared
value types.

Properties that turned out to hold only under a condition are stated as equivalences:

- Notices about a finding alternate, opened first, exactly in runs whose every step is *fair*
  (`Lifecycle.NotificationBalance`). A status edit of a resolved finding is the plainest unfair step;
  `Lifecycle.EditedResolvedIsAnnouncedTwice` shows the second "resolved" it causes. For the product's own scans,
  fair means: each reported CVE is live and its target steady, or it is not live and listed once
  (`FeedRuns.ProductRunsBalance`). Scans of steady targets whose feeds list each CVE once are always fair
  (`FeedRuns.SteadyRunsBalance`).
- The in-memory and the SQL store agree exactly when no new finding takes an occupied key
  (`ReconcileLaws.StoresAgree`; `ReconcileLaws.RepeatedFindingDisagrees` breaks it). For the product's own scans that
  means: each reported CVE is stored and its target steady, or it is new and listed once
  (`FeedRuns.ProductRunsAgree`, `FeedRuns.SteadyRunsAgree`).
- A canonical CPE reads back as itself, and its target is *steady*, exactly when its last field has no trailing space
  (`Cpe.CanonicalFixedPoint`). Names of at most 13 fields always qualify; a longer one fails only if its thirteenth field
  ends in white space (`Cpe.SpacedNameIsNotFixed` gives one). For a target that is not steady, every scan announces
  all it lists as newly open and resolves nothing (`FeedRuns.UnsteadyTargetNeverSettles`), a second scan listing the
  same CVE makes the stores differ (`FeedRuns.UnsteadyRescanDiverges`), and its findings are resolved by scans of the
  steady name its key reads back as (`FeedRuns.UnsteadyFindingsResolveElsewhere`). The console, unless both keys are
  targets already, saves one the scheduler does not have (`Inventory.ConsoleAddedConsistent`,
  `Inventory.SpacedNameBreaksConsole`).
- Sanitising is idempotent exactly when no list of strings survives at the depth limit (`Evidence.SanitizedTwice`);
  `Evidence.DeepTextsAreCutOffLater` gives evidence where it is not.
- The backoff is `min(RetryBase * 2^(n-1), RetryMax)` for every n exactly when some doubling reaches the cap before
  64-bit arithmetic wraps (`Backoff.BackoffIsIdeal`); a base and cap of 2^62 give a negative delay
  (`Backoff.LargeParametersWrap`).

Where code and comments differ the model follows the code: `epss.go` says the missing scores are fetched in one
request, but it pages; `evidence.go` promises a marker for anything nested deeper than three, but a `[]string` at the
deepest level becomes a fourth level; `scheduler.go` says a target added while running waits for the next pass, but it
is scanned at once; `cpe.go` says String round-trips, which holds for the normalised forms above and not for every text.

## Model

| member | source | states |
|---|---|---|
| Store.FindingStore.ListByTarget | store/memory.go:20-30 | lists the records of one module and target, each exactly once, in an unspecified order |
| Store.FindingStore.Upsert | store/sqlite.go:112-142 | leaves every other record alone; the in-memory store holds r under its key; the SQL store, on a row already there, keeps id, target, check and first-seen time and takes every other column from r |
| Store.FindingStore.PruneResolvedBefore | store/sqlite.go:214-222 | a record remains, unchanged, iff it is not a resolved one with a resolution time before the cutoff; counts the others |
| Reconcile.Engine.Reconcile | store/reconcile.go:23-111 | the two loops leave the pointwise table AfterScan for every input, whatever the listing order, and report exactly the opened, resolved and rejected findings |
| Reconcile.Engine.IngestOne | store/reconcile.go:38-86 | one finding is refused, inserted under a new id, or merged; it is announced iff new or previously resolved |
| Reconcile.Engine.ResolveOne | store/reconcile.go:89-107 | one listed record is skipped, counted absent, or resolved and announced at the threshold |
| Reconcile.LoopsComputeAfterScan | store/reconcile.go:27-110 | both loops over any listing compute, key by key, a function of the record's previous value, the last valid finding with its fingerprint, and the clock |
| Reconcile.ClosedIsAnnounced | store/reconcile.go:89-104 | the resolved list holds each resolved finding once, for any listing order |
| ReconcileLaws.StoredOrRejected | store/reconcile.go:38-86 | every reported finding is rejected by name or its key is live, seen now, with streak zero and refreshed descriptive fields, evidence within 64 KiB or replaced by a marker |
| Core.ValidationNamesFirst | core/finding.go:102-118 | a finding is refused iff a required field is empty or the severity unknown, and for the first such field in order |
| Core.CappedEvidence | store/reconcile.go:116-132 | evidence is stored as it is up to 64 KiB of its serialised form, otherwise a marker with its size, or a marker that it has none |
| Core.RankOrdersSeverities | core/finding.go:26-46 | severities rank from critical down to informational, and anything unknown below them all |
| ReconcileLaws.IdentityKept | store/reconcile.go:67-79 | id, first-seen time, target and check of a record survive a scan, except exactly when memory lets another target's finding overwrite it |
| Statuses.ReportedKeepsStatus | store/reconcile.go:68-86 | a finding reported again keeps its status, resolution time and origin, except that a resolved one is open again with the time cleared |
| Statuses.MissedMayResolve | store/reconcile.go:88-108 | a resolved or suppressed finding that is not reported is left alone; any other is one scan more absent and resolved now exactly if that reaches the threshold |
| Statuses.NewFindingIsOpened | store/reconcile.go:46-65 | a key not stored gets the open record of the finding reported for it, first and last seen now, with the next id |
| Statuses.EditStands | web/server.go:271-277 | over every run, a status the user gives stands until the next edit or, unless it is suppression, until the finding is resolved |
| ReconcileLaws.OthersUntouched | store/reconcile.go:27-34 | records of other modules and unreported records of other targets are unchanged and none appears |
| ReconcileLaws.OrderOfReportsIrrelevant | store/reconcile.go:38-86 | permuting distinct findings gives the same table, the same resolved and rejected findings, and the same newly open ones as multisets, all up to ids |
| ReconcileLaws.StoresAgreeOnScan | store/sqlite.go:112-142 | after one scan both stores hold the same table iff no new finding takes an occupied key |
| ReconcileLaws.StoresAgree | store/memory.go:32-37 | over whole runs from empty, both stores and their announcements agree throughout iff no scan collides |
| ReconcileLaws.RepeatedFindingDisagrees | store/sqlite.go:112-142 | a scan from an empty store that lists one valid finding twice leaves the stores with different ids |
| Lifecycle.HandleFindingStatus | web/server.go:255-282 | only open, acknowledged and suppressed are accepted; a missing finding is not found; otherwise that finding gets the status and nothing else changes |
| Lifecycle.BalanceStep | store/reconcile.go:46-108 | one step keeps a key's notices balanced iff it is fair to that key |
| Lifecycle.NotificationBalance | store/reconcile.go:46-108 | over every run, notices alternate and agree with the record at every moment iff every step is fair |
| Lifecycle.OpenedMinusResolved | store/reconcile.go:46-108 | opened minus resolved notices is one for a live record and zero otherwise |
| Lifecycle.EditedResolvedIsAnnouncedTwice | web/server.go:264-277 | a resolved finding edited to open or acknowledged is announced resolved a second time by the next scan that misses it |
| Lifecycle.LifecycleInvariant | store/reconcile.go:67-108 | on every reachable table, however users edit: first seen <= last seen, and resolved implies a resolution time no earlier than last seen and a streak at the threshold |
| Lifecycle.SettledStep | web/server.go:264-277 | live records stay below the threshold with no resolution time iff the step edits no resolved finding |
| Lifecycle.SettledInvariant | core/collector.go:51-56 | if users never edit resolved findings, every live record is below its threshold and has no resolution time |
| Lifecycle.ResolvesExactlyAtThreshold | store/reconcile.go:88-108 | a live record users leave alone resolves, with one notice, at exactly the scan completing its consecutive absences, whatever else happens |
| Cpe.SplitEscaped | cpe/cpe.go:123-144 | the loop computes the fields between unescaped colons, and joining them with colons gives the text back |
| Cpe.JoinFields | cpe/cpe.go:123-144 | splitting loses nothing, from either escape state |
| Cpe.FieldsOfJoin | cpe/cpe.go:69-82 | splitting undoes the colon join of fields without unescaped colons |
| Cpe.UnbindBind | cpe/cpe.go:146-160 | unbind undoes bind for every value |
| Cpe.EscapeByCharacter | cpe/cpe.go:147-154 | exactly backslash, colon, question mark and star are escaped, character by character |
| Cpe.UnbindKeepsOthers | cpe/cpe.go:157-160 | every other backslash is kept |
| Cpe.ShortFormReads | cpe/cpe.go:36-62 | a name that ends at its version reads as those four attributes and wildcards in every later field; refused unless its part is a, o or h and its product is given |
| Cpe.MissingFieldIsWildcard | cpe/cpe.go:46-51 | appending a wildcard field to a name of 5 to 12 fields that does not end in an open escape changes nothing |
| Cpe.ShortTextsAreRefused | cpe/cpe.go:36-45 | a text is refused for its prefix iff it lacks it, and for too few fields iff it then has fewer than five |
| Cpe.CanonicalText | cpe/cpe.go:69-82 | the canonical form of plain values is the prefix and the eleven attributes in order, with stars for empty ones |
| Cpe.LabelReads | cpe/cpe.go:88-98 | the label is the product, after a vendor that is given and different, before a version that is given |
| Cpe.ParseCanonical | cpe/cpe.go:36-82 | what the canonical form of any CPE at all parses to: an error, or the CPE with wildcards for empty fields and its last field right-trimmed |
| Cpe.PrintThenParse | cpe/cpe.go:36-82 | print then parse is the identity up to empty-to-wildcard iff the last field has no trailing space |
| Cpe.CanonicalInjective | cpe/cpe.go:69-85 | canonical forms tell normalised CPEs apart |
| Cpe.CanonicalFixedPoint | cpe/cpe.go:36-85 | an accepted name's canonical form is accepted, and canonicalises to itself iff the last field has no trailing space |
| Cpe.ShortNamesAreFixedPoints | cpe/cpe.go:41-62 | with at most 13 fields the canonical form is always a fixed point |
| Cpe.EveryNameIsRead | cpe/cpe.go:41-62 | every normalised CPE, trailing space or not, is what some accepted text of 14 fields parses to |
| Cpe.SpacedNameIsNotFixed | cpe/cpe.go:41-85 | an accepted text whose canonical form is accepted but does not read back as itself |
| Normalize.AppAliasesAreStable | cpe/normalize.go:51-69 | every product the application aliases give normalises to itself as an application |
| Normalize.OsAliasesAreStable | cpe/normalize.go:70-95 | every product the system aliases give normalises to itself as an operating system |
| Normalize.TokenReads | cpe/cpe.go:114-118 | a token is the text without surrounding white space, in lower case, with underscores for blanks |
| Normalize.VersionReads | cpe/normalize.go:131-139 | a bare number becomes a release of a system and is kept for anything else; other version tokens are kept; a blank is a wildcard |
| Normalize.ApplicationAliases | cpe/normalize.go:51-69 | the application aliases, entry by entry |
| Normalize.SystemAliases | cpe/normalize.go:70-87 | the operating-system aliases, entry by entry |
| Normalize.SystemsAreNoApplications | cpe/normalize.go:70-87 | an operating-system alias is never taken for an application |
| Normalize.FamiliesAreSystems | cpe/normalize.go:89-95 | each system family, alone or with more after a dash or underscore, and each system ending makes a system |
| Normalize.SystemHasFamily | cpe/normalize.go:141-153 | nothing else does |
| Normalize.FromProductVersionFixedPoint | cpe/cpe.go:106-118 | normalising a normalised product and version changes nothing, for every input |
| Normalize.DerivedNameIsAccepted | cpe/cpe.go:106-118 | the derived name is an accepted target iff the product is not a bare wildcard, and then reads back as its part, product and version with wildcards everywhere else |
| Normalize.BlankHasNoName | cpe/cpe.go:106-112 | a name is derived from anything that is not blank |
| Patchlight.Collect | patchlight/collector.go:52-72 | re-parses the key and emits one finding per CVE that has an id, in feed order |
| Patchlight.VulnFindingIngestible | patchlight/patchlight.go:78-119 | every emitted finding passes the store's validation |
| Patchlight.CollectedFindingsTell | patchlight/patchlight.go:78-119 | every collected finding tells of a listed CVE: hashed text, target, severity by exploitation and score, title, remediation and evidence are that CVE's; and every listed CVE with an id has such a finding |
| Patchlight.RankFits | patchlight/patchlight.go:54-65 | the severity and priority each CVE gets, by exploitation and score |
| Patchlight.RankIsMonotone | patchlight/patchlight.go:54-65 | more exploitation and a higher score never make a CVE less urgent |
| Patchlight.FingerprintInjective | core/finding.go:135-138 | fingerprints are equal iff target and CVE id are, for ids without a bar and a collision-free hash |
| Patchlight.WhyReads | patchlight/patchlight.go:87-95 | a title ends with the priority, the known exploitation with its date if any, and both scores |
| Patchlight.ValidatedTargetsAreSteady | patchlight/collector.go:42-48 | a validated target's key is accepted again, and reads back as itself iff its last field has no trailing space, always for at most 13 fields |
| Patchlight.MirrorsFeed | patchlight/collector.go:34-72 | in every run over accepted targets with bar-free CVE ids, right after a scan a CVE's record is live iff the feed listed it in this scan or it was live before and, if the target is steady, suppressed |
| FeedRuns.ReportedAsListed | patchlight/collector.go:60-72 | a scan reports a CVE's key as often as the feed lists the CVE |
| FeedRuns.CollectedScanFair | store/reconcile.go:46-86 | a scan of an accepted target keeps the notices of a key balanced iff the key is not reported, or live and the target steady, or not live and reported once |
| FeedRuns.CollectedScanCollisionFree | store/sqlite.go:112-142 | a scan of an accepted target has no collision iff every key it reports is stored and the target steady, or new and reported once |
| FeedRuns.ProductRunsBalance | notify/bridge.go:12-25 | in every run over accepted targets with bar-free ids, notices of a finding alternate, opened first, iff every scan meets that condition for it and no edit finds it resolved |
| FeedRuns.ProductRunsAgree | store/sqlite.go:112-142 | in every run over accepted targets with bar-free ids, the two stores hold the same table and announce the same throughout iff every scan meets the condition |
| FeedRuns.SteadyRunsBalance | notify/bridge.go:12-25 | in every run over steady targets whose feeds list each bar-free id once, without edits of resolved findings, notices alternate, opened first |
| FeedRuns.SteadyRunsAgree | store/sqlite.go:112-142 | in every run over steady targets whose feeds list each bar-free id once, however users edit, the two stores agree throughout |
| FeedRuns.UnsteadyTargetNeverSettles | patchlight/patchlight.go:74-99 | in every run from an empty store, each scan of a target that is not steady announces every CVE as newly open, as often as it is listed, and nothing as resolved |
| FeedRuns.UnsteadyFindingsResolveElsewhere | patchlight/patchlight.go:74-99 | what such a target files is resolved, unless suppressed, by a scan of the steady name its key reads back as that does not list it |
| FeedRuns.UnsteadyRescanDiverges | patchlight/patchlight.go:74-99 | two scans of such a target that list the same CVE unbalance its notices and leave the two stores with different tables |
| SeveritySort.SortBySeverity | notify/notify.go:243-250 | the in-place sort yields the rank-by-rank concatenation of the original, in which no finding stands after a less severe one |
| SeveritySort.SortIsPermutation | notify/notify.go:243-250 | sorting loses and repeats nothing |
| SeveritySort.SameRankKept | notify/notify.go:243-250 | findings of one severity keep their order |
| SeveritySort.RankIsSeverity | notify/notify.go:228-241 | a higher rank is a more severe level: critical, high, medium, low, then the rest alike |
| Notify.PassesUnlessOutranked | notify/notify.go:159-164 | without a minimum every severity passes; with one exactly those it does not outrank |
| Notify.Dispatcher.Enqueue | notify/notify.go:113-140 | an event changes nothing exactly when the dispatcher is closed, its kind, module and fingerprint were seen, or it is an opened event less severe than the minimum; otherwise it is appended, and the batch flushed at its size; keeps the dispatcher invariant |
| Notify.Dispatcher.Flush | notify/notify.go:144-148 | sends one digest per module with something to say and starts a new window |
| Notify.Dispatcher.Close | notify/notify.go:151-157 | flushes and refuses further events |
| Notify.RunInv | notify/notify.go:113-157 | after every operation sequence: seen is exactly the key set of the pending lists, each key once and in its own module's non-empty list, fewer than the batch size are pending, the timer is armed iff something is pending, and closed implies nothing is |
| Notify.ClosedByClose | notify/notify.go:144-157 | the dispatcher is closed exactly from the first close on, and a flush or close leaves nothing waiting |
| Notify.ExactlyOnce | notify/notify.go:113-206 | each event occurs in digests and pending lists together exactly as often as it was accepted |
| Notify.DeliveredByClose | notify/notify.go:151-157 | every event passing severity before the close has its kind, module and fingerprint in some digest after it |
| Notify.DigestsHaveNoRepeats | notify/notify.go:122-126 | no digest holds the same kind and fingerprint twice |
| Notify.SendWithRetry | notify/notify.go:208-224 | at most the configured attempts, stopping at the first success; failure is reported iff all fail |
| Bridge.ForwardResult | notify/bridge.go:14-24 | forwards newly open findings, then resolved ones, as events |
| Bridge.ScanIsAnnounced | notify/bridge.go:14-24 | every severe enough newly open finding and every resolved one of a scan is in some digest once the dispatcher has closed |
| Ulid.EncodeCrockford | store/ulid.go:35-49 | the shift-and-carry loop yields the 26-digit base-32 form of the 16 bytes |
| Ulid.NewUlid | store/ulid.go:18-32 | a ULID is the low 48 bits of the time followed by the random bytes, encoded |
| Ulid.DecodeEncode | store/ulid.go:35-49 | decoding recovers the 16 bytes |
| Ulid.EncodeKeepsOrder | store/ulid.go:36-37 | text order equals byte order |
| Ulid.FirstSymbol | store/ulid.go:38-49 | the first symbol is at most 7 |
| Ulid.UlidOrder | store/ulid.go:9-13 | ULIDs compare by the low 48 bits of their times, then by their random bits |
| Ulid.LaterSortsAfter | store/ulid.go:9-13 | within the 48-bit range a later id sorts after an earlier one for any random bits |
| Evidence.FirstIsPrefix | internal/aiclient/evidence.go:61-64 | the kept keys are the first 24 in sorted order: that many, each before every dropped one |
| Evidence.SecretKeyMeans | internal/aiclient/evidence.go:128-136 | a key is secret-like iff one of the marker words is written in it, in whatever case |
| Evidence.MarkersListed | internal/aiclient/evidence.go:27-31 | the seventeen marker words |
| Evidence.SecretsAreDropped | internal/aiclient/evidence.go:46-73 | no key with a marker word in it is anywhere in sanitised evidence, and the keys kept are the first 24 of all others |
| Evidence.SanitizedShows | internal/aiclient/evidence.go:75-126 | each value is shown as it is: texts whole or cut at 400 characters with an ellipsis, the first 12 list items, the first 24 harmless keys, and markers for what is too deep or has no JSON form |
| Evidence.EvidenceShows | internal/aiclient/evidence.go:46-48 | the same for a whole evidence map |
| Evidence.SanitizeEvidence | internal/aiclient/evidence.go:46-73 | the loops and the mutual recursion terminate and compute the sanitised map |
| Evidence.SanitizedIsClean | internal/aiclient/evidence.go:75-126 | at every depth: no secret-like key, at most 24 keys, at most 12 items, texts of at most 401 characters |
| Evidence.SanitizedNesting | internal/aiclient/evidence.go:82-95 | container nesting is bounded by the levels left, plus one only where a list of strings sits at the deepest level |
| Evidence.SanitizedEvidenceIsBounded | internal/aiclient/evidence.go:33-48 | the result has exactly the first 24 non-secret keys, is clean throughout, and nests at most three deep (four with a deep list of strings) |
| Evidence.SanitizedTwice | internal/aiclient/evidence.go:75-126 | sanitising a value is idempotent iff no list of strings survives at or beyond the depth limit |
| Evidence.SanitizedEvidenceTwice | internal/aiclient/evidence.go:46-73 | the same for a whole evidence map: no such list under a kept key |
| Evidence.DeepTextsAreCutOffLater | internal/aiclient/evidence.go:100-109 | evidence with a list of strings three maps down loses it when sanitised a second time |
| Epss.Provider.Scores | epss/epss.go:41-111 | hits plus whole pages are answered, each with a score the feed gave within the time to live (zero when it does not list the id), the rest of the cache is unchanged, and without an error the result's domain is the non-empty requested ids |
| Epss.AnswerIsComplete | epss/epss.go:76-81 | for a request of one page the server's truncation loses nothing, and an id it does not list scores zero |
| Epss.AnswerIsTruncated | epss/epss.go:76-81 | the server gives nothing for an id asked for only after the first hundred |
| Epss.PagesCover | epss/epss.go:82-87 | the pages concatenate to exactly the missing list |
| Epss.FreshScoreIsTrue | epss/epss.go:59-60 | a score served from the cache is the feed's at some time within the time to live, and the feed's own if the feed is constant |
| Backoff.ComputeBackoff | sched/scheduler.go:339-351 | the doubling loop with 64-bit wrap-around computes BackoffFor, and stops by the first doubling that reaches the cap |
| Backoff.BackoffIsIdeal | sched/scheduler.go:339-351 | the backoff is min(base * 2^(n-1), max) for all n >= 1 iff some doubling reaches the cap before wrapping |
| Backoff.LargeParametersWrap | sched/scheduler.go:339-351 | a base and cap of 2^62 never reach the cap, and the second failure gets a negative delay |
| Backoff.SmallParametersReachCap | sched/scheduler.go:33-34 | base and cap below 2^62 are enough |
| Backoff.IdealMonotone | sched/scheduler.go:338-351 | delays never shrink with more failures and never exceed the cap |
| Backoff.SweepRespectsBackoff | sched/scheduler.go:261-288 | a sweep scans again no sooner, and no later if it comes by, than the n-th delay after the n-th consecutive failure |
| Scheduler.StepInv | sched/scheduler.go:236-336 | every step keeps: tokens equal scans inside Collect or Reconcile, the wait group equals live loops plus counted unfinished scans, given-up scans are clean |
| Scheduler.WorkersBoundScans | sched/scheduler.go:308-314 | in every interleaving the scans inside equal the tokens held and never exceed the workers, and all tokens are back when none is inside |
| Scheduler.GivenUpNeverReachesStore | sched/scheduler.go:309-314 | a scan that took the cancelled branch while waiting never reaches the store |
| Scheduler.WaitingScanMayLeave | sched/scheduler.go:309-314 | once its context is cancelled a waiting scan may leave without a token |
| Scheduler.NothingGivesUpEarly | sched/scheduler.go:236-304 | until the scheduler is cancelled every module loop runs and no scan but an on-demand one gives up waiting |
| Scheduler.StopMeansQuiet | sched/scheduler.go:197-205 | from the moment Stop has returned, in every continuation, all module loops, every scan they started, and every scan of a target added before then have ended |
| Scheduler.ScansNeverStuck | sched/scheduler.go:308-336 | while a scan has not ended some scan can move on by itself, so no exit path leaks a token |
| Inventory.Server.HandleAddTarget | web/server.go:294-322 | refused exactly when a cap is set and as many targets are scheduled, or by validation; otherwise the text is registered and its key saved |
| Inventory.Server.ConsoleAdd | cmd/patchlight/main.go:128-138 | refused at the cap of saved targets or by validation; otherwise registered under the parsed key and saved under the given text |
| Inventory.Server.HandleRemoveTarget | web/server.go:324-335 | removes the key from the scheduler and every saved entry with it |
| Inventory.Server.Boot | cmd/patchlight/main.go:95-102 | replays the saved texts, skipping unreadable ones |
| Inventory.Server.SaveTarget | store/memory.go:74-87 | appends unless the key is saved already |
| Inventory.Server.DeleteTarget | store/memory.go:89-101 | keeps the other entries in order |
| Inventory.Server.ImportSbom | patchlight/console.go:97-117 | the loop adds each distinct component once and tallies added, skipped and refused ones |
| Inventory.AddedConsistent | web/server.go:294-322 | the target endpoint keeps saved and scheduled keys equal |
| Inventory.ConsoleAddedConsistent | cmd/patchlight/main.go:128-138 | the console keeps them equal iff it refuses the name, the name's last field has no trailing space, or both keys were there |
| Inventory.SpacedNameBreaksConsole | cmd/patchlight/main.go:128-138 | a name whose last field ends in a space, added to an empty inventory, is saved under a key the scheduler does not have |
| Inventory.RestartRebuilds | cmd/patchlight/main.go:95-102 | a restart of a consistent inventory rebuilds exactly the same set of targets |
| Inventory.InventoryInvariant | web/server.go:116-118 | over every run of both add paths, imports, removals and restarts: saved keys equal scheduled keys throughout iff every name the console adds is harmless where it is added; then a restart rebuilds them and the cap holds |
| Inventory.SteadyRunsAreHarmless | patchlight/console.go:97-117 | runs that add only names without a trailing space meet the condition of InventoryInvariant |
| Inventory.ImportAccounts | patchlight/console.go:97-117 | added plus skipped plus limited is the number of components, and the items are the labels of the first fifty added ones |
| Inventory.ImportSkipsRepetitions | patchlight/console.go:98-105 | a component is skipped iff an earlier one has its name, and skipped counts them |
| Inventory.ImportKeepsInventory | patchlight/console.go:97-117 | an import keeps consistency after every component iff each name it adds is harmless there, and then the cap holds |
| Dictionary.ParseTopCpe | nvd/nvd.go:293-352 | the loops return the first entry of the best kind on offer |
| Dictionary.ChoiceIsBest | nvd/nvd.go:285-292 | exact product before containing product before current name before any name, first of its kind; a deprecated name only when every named entry is deprecated; none only when nothing is named |
| Dictionary.ExactMeansSameProduct | nvd/nvd.go:322-325 | an exact entry is a current, parsable one whose product equals the wanted one but for case |
| Dictionary.FindVersionInfo | nvd/nvd.go:209-256 | the nested loops return the evidence of the first applicable statement in reading order |
| Dictionary.EvidenceIsFirst | nvd/nvd.go:228-256 | the evidence is the first vulnerable statement about the target, or empty when there is none |
| Dictionary.QuotedEvidenceConcernsTarget | nvd/nvd.go:209-283 | the evidence quotes the first vulnerable statement whose product, part and vendor each equal the target's but for case or are left open on one side; if there is none it is empty |
| Dictionary.DescribedReads | nvd/nvd.go:228-256 | the fixed version is the exclusive upper bound, and the range names the bounds that are given |

## Left out

- HTTP decoding and encoding, the static UI, flags, files, the network and the delivery channels: I/O.
- SQL text and the driver: the SQL store is a table with the conflict clause's column list; row time zones and the JSON form of stored evidence are not modelled.
- JSON parsing of feeds and SBOMs: decoded records are inputs. A custom evidence value carries what its JSON round trip yields.
- SHA-256: a hash parameter assumed injective and never empty. Rendering of numbers in titles: parameters.
- Store keys: a pair of module and fingerprint, and a triple for dispatcher keys, where the source joins them with a separator that neither may contain.
- Unicode case folding (ASCII letters only) and text that is not valid UTF-8.
- Store and id-generation failures, and concurrent reconciles of one target: the source promises nothing there. One reconcile is one step.
- Clock reads inside one call: a reconcile, a cache split and a page commit each use one reading. Digest times are not modelled.
- Concurrent calls of the EPSS provider; ids containing the comma that joins a request; the NVD response cache, which repeats the same pattern.
- Jitter and interval choice; the scheduler's per-target maps appear as one target's gate in `Backoff` and not in the protocol of `Scheduler`.
- The order in which a flush hands digests of different modules to channels, and each channel's goroutine: a flush is one map of digests.
- StopMeansQuiet: does not cover on-demand scans or scans of targets added after Stop has returned, for which the source makes no such promise.
- MirrorsFeed: covers CVE ids without a bar, the separator of the hashed fields; so do the results of `FeedRuns`.
- SanitizeEvidence: an empty result is the empty map, where the source returns nil.
- EncodeCrockford: the 64-bit words are numbers below 2^64, and shifts, mask and or are written as division, remainder and sum of disjoint parts.
- ChoiceIsBest: the validity of a resolved name as a target is not part of it; falling back to a derived name is `Normalize.DerivedNameIsAccepted`.
- License activation, the verify package, the KEV provider, the regexp guard and the AI client: cryptography, unused here, or only simple branching.
