# Proofs about the Dynatrace OpenTelemetry collector's own Go code

A Dafny model of four parts of the repository, with proofs of what they promise.

**Configuration provider** (`EecProtocol`, `EecWatchers`, `EecCache`, `EecOverlaps`, `EecHeaders`, `EecClient`,
`EecRounds`, `EecOrder`, `EecRequests`, `EecPolling`, `EecStops`, `EecPaths`, `EecProvider`).
The provider is a labelled transition system: each call of Retrieve is a session, each atomic action of a goroutine a
label, and a run of labels is its own trace of requests, publications and notifications. The server answers anything at
any time. SHA-256 is a function of which nothing is assumed. A poll begun under a cancelled context fails; one that was
already out may still bring an answer and publish it. Everything is proved of every run, so of every interleaving.
`EecProvider` is the object itself: one method per atomic block, the sequential Retrieve and the watcher's loop, each
proved to perform labels of the transition system.

**Telemetry de-duplication** (`Grouping`, `AttrsKey`, `Telemetry`, `TelemetryLaws`, `TelemetryPayloads`,
`TelemetryIdempotence`, `TelemetryMetrics`). A payload is four nested levels of keyed containers. The passes run as loops with first-index maps
over a mutable payload and are proved against a specification by key paths; the laws span all four passes.

**YAML overlays** (`YamlTree`, `YamlLaws`, `YamlOverlays`, `YamlRoots`, `YamlNodes`). The merge is defined on trees, and the
destructive merge of node objects is proved to refine it and to share no node with the overlay.

**Changelog generator** (`Text`, `Sequences`, `Semver`, `Versions`, `Precedence`, `PathPattern`, `PrUrl`,
`ChangelogEntries`, `UpstreamRender`, `UpstreamTexts`, `Markers`, `UpstreamSection`, `Scaffold`, `ChangelogRun`,
`ReleaseTemplate`). From the pull-request URLs to the text of the
changelog, on strings throughout. Version grammar and precedence are those of Semantic Versioning 2.0.0, sections 9 to 11,
with the shorthands of golang.org/x/mod/semver.

## Where the code departs from its comments

The model follows the code. Each point names its witness and then what holds exactly.

- provider.go:166-167: a configuration the watcher obtained is not always returned instead of fetched again, and may be
  returned twice, as lookup and delete are two steps. `PublicationLost`, `ServedTwice`; `OneShotExactly`.
- provider.go:190-194: resolving twice is guarded against watching twice, but not against handing out an older answer behind
  a newer one. `TwicePerRoundOutOfOrder`, `SlowRequestOutOfOrder`; `InOrderExactly`, and `TwiceInOrder` to check.
- eecprovider/README.md:36: later requests for a URL can be marked first=true as well. `FirstHeaderRepeats`;
  `FirstHeaderExactly`.
- provider.go:218-220 and eecprovider/README.md:37: changed=true is sent on a watcher's first poll after any Retrieve, and
  changed=false by a second resolution. `ChangedHeaderOverstates`, `SecondResolutionHidesChange`; `ChangedHeaderTruthful`,
  `ChangedFlagExactly`, `ClientFlagExactly`.
- testutil.go:625-626: resources of different attributes are merged too when their keys collide. `DifferentResourcesMerge`;
  `MergedWithOthersExactly`, `PairMergesExactly`, and for attributes without separators `KeySeparatesPlain`.
- testutil.go:627-631: a first metric of type Empty prevents merged metrics and unique datapoints, and different types under
  one name panic. `EmptyLeadKeepsRepeats`, `GaugeAndSumClash`; `OneSurvivorExactly`, `NamesDistinctExactly`, and the contract
  of `DeduplicateResources`.
- testutil.go:647-650: what a later pass empties stays until a second call. `EmptyShellChangesAgain`;
  `SecondCallChangesNothingExactly`.
- collector.go:23: later overlays do not win where base or overlay is not a mapping at its root. `RootOverlayLost`;
  `AppliedIsFoldedExactly`.
- changelog.go:38-39: the boundary markers go only with the line breaks they are expected to have. `BoundariesStay`;
  `BoundariesOfScaffoldGoExactly`.
- changelog.go:65-67: with the markers reversed neither is removed and the text between them is doubled.
  `ReversedMarkersDouble`; `RemovalIsMarkerFreeExactly`, `RemovalIdempotentExactly`.
- changelog.go:78-80: an empty placeholder goes only when blank lines surround it, and one quoted by an earlier content is
  filled as well. `QuotedMarkerIsFilled`; `FillsPlaceholder`, `FillsOneExactly`.
- generator.go:180-192: only v0 versions are announced, so the highest version may not be. `HighestMayBeHidden`;
  `HighestAnnouncedExactly`.

## Model

| member | source | states |
|---|---|---|
| `EecWatchers.MapHoldsLiveInRuns` | internal/confmap/provider/eecprovider/provider.go:190-203 | After every run, under any interleaving, each uncancelled watcher is the one whose cancel function the map holds for its URL, and the map holds only sessions that went through the mutex block |
| `EecWatchers.SingleLiveWatcher` | internal/confmap/provider/eecprovider/provider.go:190-203 | In every reachable state two uncancelled watchers of one URL, spawned or about to be, are the same one |
| `EecWatchers.LivesFitRuns` | internal/confmap/provider/eecprovider/watcher.go:24-56 | What a run shows of every session (polls, answers, publications, notifications, cancellation) fits its state; the invariant behind the next three rows |
| `EecWatchers.PublishesFirstChangeOnce` | internal/confmap/provider/eecprovider/watcher.go:42-48 | A watcher publishes at most once and notifies at most as often; it publishes its first successful answer whose hash differs from that of the body its own Retrieve served, brought by a poll begun before the watcher was cancelled |
| `EecWatchers.StopsAtFirstChange` | internal/confmap/provider/eecprovider/watcher.go:42-49 | Only the last answer a watcher receives can have a different hash |
| `EecWatchers.CancelledPublishesOnlyHeldAnswer` | internal/confmap/provider/eecprovider/watcher.go:36-47 | Whatever is published, even after cancellation, is the last answer received and came from a poll begun under an uncancelled context |
| `EecPolling.OnlyPollingCallsWatch` | internal/confmap/provider/eecprovider/provider.go:187-235 | In every run whoever sets up a watcher, polls, publishes, notifies or exits has looked up once, and with polling enabled |
| `EecPolling.PollingCallsRegister` | internal/confmap/provider/eecprovider/provider.go:187-203 | As soon as a call has its body its next step is the set-up of its watcher, and it may take that exactly if polling is enabled |
| `EecStops.ExitHasReason` | internal/confmap/provider/eecprovider/watcher.go:50-53 | A watcher ends without a notification only after a shutdown, the cancellation of its own context, or the registration of the watcher that displaced it |
| `EecStops.PollsUntilStopped` | internal/confmap/provider/eecprovider/watcher.go:31-53 | After its start, a failed poll or an answer with its body's hash a watcher may poll again, and may end exactly if one of those has happened; after an answer with another hash it may do neither |
| `EecStops.NothingAfterTheEnd` | internal/confmap/provider/eecprovider/watcher.go:42-53 | After a failed direct request, a notification or an exit the session does nothing more |
| `EecCache.CacheHoldsUndeleted` | internal/confmap/provider/eecprovider/provider.go:168-169 | The cache entry of a URL is exactly the last publication for it, unless a delete has come since |
| `EecCache.OneShotExactly` | internal/confmap/provider/eecprovider/provider.go:166-185 | A lookup finds exactly what has been published and looked up by nobody, unless it falls into the window (lookup to delete) of another call with nothing published since, or a window swallowed the last publication |
| `EecCache.MissIsTrueExactly` | internal/confmap/provider/eecprovider/provider.go:166-185 | A lookup that makes Retrieve ask the server misses no publication exactly when none was swallowed: published within a window whose delete was the next to touch the cache |
| `EecCache.HitIsUnservedExactly` | internal/confmap/provider/eecprovider/provider.go:168-170 | A hit gets what nobody got before exactly when it shares no window with an earlier hit |
| `EecCache.HitHasPublication` | internal/confmap/provider/eecprovider/provider.go:168-170 | Every cache hit gets the body of the latest earlier publication for its URL, with no publication or delete between |
| `EecCache.DeleteHasLook` | internal/confmap/provider/eecprovider/provider.go:168-170 | Every delete ends the window of one earlier hit of the same call, URL and body |
| `EecCache.ServedTwiceExactly` | internal/confmap/provider/eecprovider/provider.go:168-170 | Two hits are served by one publication exactly when the later falls into the window of the earlier and nothing is published between |
| `EecCache.LosesExactly` | internal/confmap/provider/eecprovider/provider.go:169-169 | A delete takes an unserved publication with it exactly when that came within its window and nothing touched the cache after |
| `EecCache.PublicationsConserved` | internal/confmap/provider/eecprovider/provider.go:168-229 | Over any run: publications + hits on what was served already = hits + publications replaced, deleted or still waiting unserved |
| `EecCache.RepeatedExactly` | internal/confmap/provider/eecprovider/provider.go:168-170 | No publication of a URL is served again exactly when no two of its windows share one |
| `EecCache.LostExactly` | internal/confmap/provider/eecprovider/provider.go:168-170 | No publication of a URL is deleted unserved exactly when none of its windows swallows one |
| `EecOverlaps.ServedTwice` | internal/confmap/provider/eecprovider/provider.go:168-170 | Witness: two lookups before the first delete are both served one publication |
| `EecOverlaps.PublicationLost` | internal/confmap/provider/eecprovider/provider.go:168-170 | Witness: a publication between a lookup and its delete serves nobody, and the next call goes to the server |
| `EecHeaders.HeadersOfRequest` | internal/confmap/provider/eecprovider/provider.go:178-223 | first=true marks exactly the direct requests and never meets changed=true; changed=true marks exactly the first poll of each watcher |
| `EecHeaders.ChangedRequestsCountPollers` | internal/confmap/provider/eecprovider/provider.go:205-223 | The number of changed=true requests is the number of watchers that have polled |
| `EecHeaders.ChangedHeaderTruthful` | internal/confmap/provider/eecprovider/provider.go:205-223 | A changed=true request follows a published change exactly when its session was served from the cache |
| `EecHeaders.ChangedHeaderOverstates` | internal/confmap/provider/eecprovider/provider.go:205-223 | Witness: the first poll after a direct fetch says changed=true although nothing was published |
| `EecHeaders.FirstHeaderRepeats` | internal/confmap/provider/eecprovider/provider.go:178-179 | Witness: two resolutions of a URL both send first=true |
| `EecRequests.FirstHeaderExactly` | internal/confmap/provider/eecprovider/provider.go:166-179 | first=true marks the first request for a URL and no other exactly when no later call looks up while nothing published is undeleted and goes on to ask |
| `EecRequests.ChangedFlagExactly` | internal/confmap/provider/eecprovider/provider.go:179-223 | For every request with one before it: its flag says whether that brought a change exactly when it is a first poll and the request before is one whose watcher has found its change, or neither |
| `EecRequests.BroughtExactly` | internal/confmap/provider/eecprovider/watcher.go:42-48 | A request has brought a change exactly when it is a poll and its watcher has found one |
| `EecRequests.ClientFlagExactly` | internal/confmap/provider/eecprovider/provider.go:179-223 | For a client that retrieves once per notification the flag tells for every request but the first poll behind a direct request |
| `EecRequests.SecondResolutionHidesChange` | internal/confmap/provider/eecprovider/provider.go:190-223 | Witness: the second resolution of a round sends changed=false right behind the request that brought the change |
| `EecClient.ClientTracked` | internal/confmap/provider/eecprovider/provider.go:118-239 | In every run of a client that retrieves once and then once per notification, the kept answers and the configurations handed out differ by at most what is on its way |
| `EecClient.ClientReceivesEveryChange` | internal/confmap/provider/eecprovider/provider.go:168-238 | Such a client is handed the server's successful answers with hash-equal repeats removed; exactly when nothing is on its way it has them all, and otherwise precisely the undelivered one is missing |
| `EecClient.ReturnedConfigsDiffer` | internal/confmap/provider/eecprovider/watcher.go:42-48 | Two configurations handed out one after the other never have the same hash |
| `EecClient.ClientHoldsLatestAnswer` | internal/confmap/provider/eecprovider/watcher.go:42-48 | With nothing on its way the client's configuration has the hash of the server's latest answer |
| `EecClient.DropRepeatsAlternates` | internal/confmap/provider/eecprovider/watcher.go:42-42 | Removing hash-equal repeats leaves no two neighbours of equal hash |
| `EecRounds.ReturnedWereAnswered` | internal/confmap/provider/eecprovider/provider.go:168-229 | Whatever clients do, and however their calls overlap, a configuration handed out is one the server answered for that URL |
| `EecRounds.HitDiffersFromPublisher` | internal/confmap/provider/eecprovider/watcher.go:42-47 | What a hit gets differs by hash from what the call whose watcher published it got |
| `EecRounds.TwicePerRoundRegresses` | internal/confmap/provider/eecprovider/provider.go:190-194 | Witness: a client that resolves the URL twice per round is handed an older answer behind a newer one |
| `EecOrder.CarriesOneAnswer` | internal/confmap/provider/eecprovider/provider.go:168-232 | Every configuration handed out (an answer to a direct request, or a hit) is, to the byte, one definite earlier answer of the server for the URL |
| `EecOrder.InOrderExactly` | internal/confmap/provider/eecprovider/provider.go:166-232 | In every run configurations are handed out in the order of their answers exactly when no hit is overtaken: a direct request answered between its answer and it, or a later answer hit while its watcher still held its own |
| `EecOrder.InStrictOrderExactly` | internal/confmap/provider/eecprovider/provider.go:166-232 | ... and each answer at most once exactly when, besides, no windows share a publication |
| `EecOrder.NeverLateInOrder` | internal/confmap/provider/eecprovider/provider.go:166-232 | The order is kept if no call is answered and no watcher publishes after a younger call for the URL has looked up |
| `EecOrder.ClientIsNeverLate` | internal/confmap/provider/eecprovider/provider.go:166-232 | A client that retrieves once per notification is never late, so it is handed all in order |
| `EecOrder.TwiceInOrder` | internal/confmap/provider/eecprovider/provider.go:190-194 | A client that retrieves twice per round can be late only by its watchers' publications, and is handed all in order when none is late |
| `EecOrder.TwicePerRoundOutOfOrder` | internal/confmap/provider/eecprovider/provider.go:190-194 | Witness: in the regressing run of such a client the last hit is overtaken |
| `EecOrder.SlowRequestOutOfOrder` | internal/confmap/provider/eecprovider/provider.go:172-185 | Witness: with overlapping calls a slow direct request breaks the order though no publication is late |
| `EecProvider.Provider.constructor` | internal/confmap/provider/eecprovider/provider.go:74-82 | A new provider has the empty history |
| `EecProvider.Provider.LookUp` | internal/confmap/provider/eecprovider/provider.go:168-168 | The cache lookup: a new session that has found the entry or nothing |
| `EecProvider.Provider.DeleteEntry` | internal/confmap/provider/eecprovider/provider.go:169-170 | The delete: whatever the cache holds for the URL by now is gone, the session has its body and goes on to a watcher only with polling enabled |
| `EecProvider.Provider.SendRequest` | internal/confmap/provider/eecprovider/provider.go:172-179 | The direct request leaves with its two header values |
| `EecProvider.Provider.Answer` | internal/confmap/provider/eecprovider/provider.go:181-184 | The answer or the error of the direct request; an answered session goes on to a watcher only with polling enabled |
| `EecProvider.Provider.Ask` | internal/confmap/provider/eecprovider/provider.go:172-184 | The direct request and its answer: the session has the body, or has failed |
| `EecProvider.Provider.RegisterWatcher` | internal/confmap/provider/eecprovider/provider.go:195-203 | The mutex block: the watcher in the map is cancelled, then this session's cancel function is stored |
| `EecProvider.Provider.SpawnWatcher` | internal/confmap/provider/eecprovider/provider.go:235-235 | The goroutine starts |
| `EecProvider.Provider.StartPoll` | internal/confmap/provider/eecprovider/provider.go:209-225 | A poll leaves with first=false and the captured flag, which flips to false |
| `EecProvider.Provider.EndPoll` | internal/confmap/provider/eecprovider/watcher.go:37-42 | An error is dropped; an answer is compared with the base by hash |
| `EecProvider.Provider.PublishBody` | internal/confmap/provider/eecprovider/provider.go:229-229 | The callback stores the body for its URL |
| `EecProvider.Provider.NotifyClient` | internal/confmap/provider/eecprovider/provider.go:230-230 | The callback notifies and the watcher is over |
| `EecProvider.Provider.Stop` | internal/confmap/provider/eecprovider/watcher.go:50-53 | The watcher stops on shutdown or cancellation |
| `EecProvider.Provider.CancelContext` | internal/confmap/provider/eecprovider/provider.go:195-195 | Cancelling the context given to Retrieve cancels its watcher |
| `EecProvider.Provider.ShutdownProvider` | internal/confmap/provider/eecprovider/provider.go:245-249 | Shutdown closes the channel |
| `EecProvider.Provider.Obtain` | internal/confmap/provider/eecprovider/provider.go:164-185 | Retrieve up to its body: the cached body if there is one, else the server's answer; the session left goes on to a watcher only with polling enabled |
| `EecProvider.Provider.StartWatcher` | internal/confmap/provider/eecprovider/provider.go:195-235 | Registration and start of the watcher |
| `EecProvider.Provider.Retrieve` | internal/confmap/provider/eecprovider/provider.go:164-238 | Retrieve without interference: its body, whether it returns an error, the emptied cache entry, the live watcher in the map when polling is enabled (even if the body does not parse), and its labels |
| `EecProvider.Provider.ReportChange` | internal/confmap/provider/eecprovider/provider.go:228-231 | The callback as a whole |
| `EecProvider.Provider.Poll` | internal/confmap/provider/eecprovider/watcher.go:34-49 | One tick: request, comparison, and publication and notification when the hash differs |
| `EecProvider.Provider.Turn` | internal/confmap/provider/eecprovider/watcher.go:33-54 | One turn of the select loop |
| `EecProvider.Provider.WatchForChanges` | internal/confmap/provider/eecprovider/watcher.go:24-56 | The loop notifies the first answer whose hash differs unless a stop signal comes first, caches exactly that, and performs exactly the labels of its script |
| `EecProvider.FirstChangeMeaning` | internal/confmap/provider/eecprovider/watcher.go:32-54 | What the loop finds: an answer of different hash that no other such answer and no stop signal precedes |
| `AttrsKey.BuildCanonicalAttrsKey` | internal/testcommon/testutil/testutil.go:739-751 | The two loops of canonicalAttrsKey build the entries in key order |
| `AttrsKey.KeyIgnoresOrder` | internal/testcommon/testutil/testutil.go:739-751 | Attribute maps with the same entries have the same key in whatever order they store them |
| `AttrsKey.KeySeparatesPlain` | internal/testcommon/testutil/testutil.go:739-751 | Without '=' in keys and ',' in values, keys are equal exactly when the entries are |
| `AttrsKey.KeyCollides` | internal/testcommon/testutil/testutil.go:748-748 | Witness: separators in a value make different attributes share a key |
| `AttrsKey.KeyIsItsOwnExactly` | internal/testcommon/testutil/testutil.go:739-751 | The key of a map is shared by no map of other entries exactly when the map is empty or has one entry with no '=' in key and value |
| `TelemetryMetrics.Metrics.MergeDuplicateResources` | internal/testcommon/testutil/testutil.go:633-650 | The first-index loop and RemoveIf group resources by key, in first-occurrence order, with their scopes concatenated |
| `TelemetryMetrics.Metrics.DeduplicateScopes` | internal/testcommon/testutil/testutil.go:659-677 | The same for scopes by name, in every resource |
| `TelemetryMetrics.MergeScopes` | internal/testcommon/testutil/testutil.go:661-675 | One resource's scopes, by loop and first-index map |
| `TelemetryMetrics.MergeMetricDataPoints` | internal/testcommon/testutil/testutil.go:804-817 | Datapoints move by the type of the first metric; an Empty first metric takes nothing; a clash of types is the source's panic |
| `TelemetryMetrics.MergeMetrics` | internal/testcommon/testutil/testutil.go:685-711 | One scope's metrics: fails exactly on a clash of types, and else merges by name and drops typed metrics left without datapoints |
| `TelemetryMetrics.Metrics.DeduplicateMetricsByName` | internal/testcommon/testutil/testutil.go:682-714 | The pass over all scopes |
| `TelemetryMetrics.RemoveSeenPoints` | internal/testcommon/testutil/testutil.go:753-763 | The RemoveIf closure over `seen` keeps the first datapoint of each key, which `DedupPointsExactly` states on attributes |
| `TelemetryMetrics.DedupPointsOfMetrics` | internal/testcommon/testutil/testutil.go:721-734 | The datapoint pass over one scope's metrics |
| `TelemetryMetrics.Metrics.DeduplicateDatapoints` | internal/testcommon/testutil/testutil.go:718-737 | The datapoint pass over the payload |
| `TelemetryMetrics.Metrics.DeduplicateResources` | internal/testcommon/testutil/testutil.go:632-655 | The four passes in place: succeeds exactly without a clash of types, and then leaves Deduplicated of the payload |
| `Telemetry.SurvivorsOnPath` | internal/testcommon/testutil/testutil.go:632-737 | On every path of resource key, scope name, metric name and datapoint key, exactly what of the input survives |
| `TelemetryLaws.OneSurvivorExactly` | internal/testcommon/testutil/testutil.go:625-655 | A path keeps exactly its first datapoint in traversal order unless the first metric of its name is Empty and two metrics hold the datapoint key; no path is lost and none appears |
| `TelemetryLaws.KeysDistinctOut` | internal/testcommon/testutil/testutil.go:632-655 | Afterwards resource keys, scope names and datapoint keys are pairwise distinct, always |
| `TelemetryLaws.NamesDistinctExactly` | internal/testcommon/testutil/testutil.go:679-714 | Metric names are pairwise distinct exactly when no name repeats under an Empty first metric |
| `TelemetryLaws.EmptyLeadKeepsRepeats` | internal/testcommon/testutil/testutil.go:804-817 | Witness: under an Empty first metric a datapoint survives twice and its name stays repeated |
| `TelemetryLaws.GaugeAndSumClash` | internal/testcommon/testutil/testutil.go:804-817 | Witness: a gauge and a sum under one name and scope are an input on which the source panics |
| `TelemetryLaws.SharedKeyKeepsFirstAttributes` | internal/testcommon/testutil/testutil.go:633-650 | Resources that share a key are one in the result, under the attributes of the first; those of the others are gone |
| `TelemetryLaws.PairMergesExactly` | internal/testcommon/testutil/testutil.go:632-650 | Two resources with scopes become one exactly when the canonical keys of their attributes are equal |
| `TelemetryPayloads.ScopesMergeExactly` | internal/testcommon/testutil/testutil.go:659-677 | Two scopes of a resource, with metrics in both, become one exactly when their names are equal, whatever their versions |
| `TelemetryPayloads.MetricsMergeExactly` | internal/testcommon/testutil/testutil.go:679-714 | Two metrics of one type, with datapoints in both, become one exactly when their names are equal, whatever their descriptions |
| `TelemetryPayloads.PointsMergeExactly` | internal/testcommon/testutil/testutil.go:632-763 | Two datapoints of a typed metric both stand in the result of all passes exactly when their canonical attributes differ; otherwise the first does |
| `TelemetryPayloads.PlainPointsMergeExactly` | internal/testcommon/testutil/testutil.go:716-763 | For attributes without separators that is exactly when their entries differ |
| `TelemetryPayloads.DedupPointsExactly` | internal/testcommon/testutil/testutil.go:753-763 | The datapoint pass keeps, in order, exactly the datapoints that are the first of their canonical attributes |
| `TelemetryPayloads.SurvivorsByAttributes` | internal/testcommon/testutil/testutil.go:632-763 | In any payload without clash, under a name whose first metric is typed, exactly the datapoints survive that are the first of their canonical attributes among all of that name |
| `TelemetryLaws.PairDeduplicated` | internal/testcommon/testutil/testutil.go:632-655 | ... and that one has the first's attributes over the de-duplicated scopes of both; without any scopes nothing is left |
| `TelemetryLaws.MergedWithOthersExactly` | internal/testcommon/testutil/testutil.go:625-650 | Some other attributes are merged with a resource's exactly when these are several entries, or one with a '=' in it |
| `TelemetryLaws.DifferentResourcesMerge` | internal/testcommon/testutil/testutil.go:625-650 | Witness: two resources of different attributes whose result is one resource with the first's |
| `TelemetryIdempotence.NoTypeClashOut` | internal/testcommon/testutil/testutil.go:632-655 | A second call never panics |
| `TelemetryIdempotence.SecondCallChangesNothingExactly` | internal/testcommon/testutil/testutil.go:632-655 | A second call changes nothing exactly when every resource key with a scope has one with a metric and every scope path with a metric has one that survives |
| `TelemetryIdempotence.EmptyShellChangesAgain` | internal/testcommon/testutil/testutil.go:648-650 | Witness: a scope without metrics leaves a resource that only a second call removes |
| `Grouping.GatherGrouped` | internal/testcommon/testutil/testutil.go:634-650 | Grouping loses no child, reorders none and moves none to another key |
| `Grouping.GroupedDistinct` | internal/testcommon/testutil/testutil.go:634-650 | After grouping keys are distinct and no container is empty |
| `Grouping.GroupedFixpoint` | internal/testcommon/testutil/testutil.go:634-650 | Distinct, filled containers are left as they are |
| `TelemetryMetrics.Metrics.MergeResources` | internal/testcommon/testutil/testutil.go:361-381 | The quadratic search merges resources by hash into a payload of its own and leaves its argument as it was |
| `TelemetryMetrics.MergeResourcesAgrees` | internal/testcommon/testutil/testutil.go:361-381 | Where hash and canonical key tell the same resources apart, it computes the grouping of DeduplicateResources once resources without scopes are dropped |
| `YamlNodes.CloneNode` | internal/testcommon/k8stest/collector.go:121-135 | The clone is a tree of fresh nodes and a copy, node by node, of kind, value, tag, style and children, without anchors |
| `YamlNodes.MergeChild` | internal/testcommon/k8stest/collector.go:97-99 | The recursive assignment to base.Content[bi+1] |
| `YamlNodes.PutChild` | internal/testcommon/k8stest/collector.go:99-99 | The value node of a pair is replaced and all else stays |
| `YamlNodes.AppendClones` | internal/testcommon/k8stest/collector.go:104-109 | Clones of a new key and its value are appended |
| `YamlNodes.MergePairInto` | internal/testcommon/k8stest/collector.go:93-110 | One turn of the overlay loop is Put of that pair |
| `YamlNodes.MergeNodes` | internal/testcommon/k8stest/collector.go:91-116 | In place, the result spells Merge of the two trees, which for anything but two mappings is a node-by-node copy of the overlay; its nodes are base nodes or fresh, none is the overlay's, the overlay is unchanged and the result is a tree |
| `YamlNodes.ApplyOverlays` | internal/testcommon/k8stest/collector.go:53-63 | The overlay fold drops each result, so only what was merged in place counts |
| `YamlTree.MergePairsKeys` | internal/testcommon/k8stest/collector.go:93-111 | Result keys are the base's in their order, then the overlay's new ones in first-occurrence order |
| `YamlTree.MergePairsDistinct` | internal/testcommon/k8stest/collector.go:93-111 | Distinct base keys stay distinct even if the overlay repeats a key |
| `YamlTree.CloneIdempotent` | internal/testcommon/k8stest/collector.go:121-135 | Cloning a clone changes nothing |
| `YamlTree.CopiesExactly` | internal/testcommon/k8stest/collector.go:121-135 | A tree is the clone exactly when node by node kind, value, tag, style and number of children are the same and no anchor is left |
| `YamlTree.CloneOfMerge` | internal/testcommon/k8stest/collector.go:91-135 | Cloning a merge is merging into the clone |
| `YamlTree.MergeOfClone` | internal/testcommon/k8stest/collector.go:91-135 | Anchors of an overlay do not matter |
| `YamlLaws.MergeIsDeepMerge` | internal/testcommon/k8stest/collector.go:90-116 | With distinct keys the nested index loops compute the declarative deep merge |
| `YamlLaws.FindInMerge` | internal/testcommon/k8stest/collector.go:90-116 | Per key: base-only untouched, shared merged, overlay-only cloned, nothing else |
| `YamlLaws.MergeIdempotent` | internal/testcommon/k8stest/collector.go:90-116 | Re-applying an overlay of distinct keys changes nothing |
| `YamlOverlays.SwallowedExactly` | internal/testcommon/k8stest/collector.go:90-116 | Merging gives the overlay alone exactly when the base adds nothing to it |
| `YamlOverlays.MergeAssociativeExactly` | internal/testcommon/k8stest/collector.go:53-63 | Two overlays in turn equal their merge exactly unless the first tears down a mapping that the second rebuilds without all the base had |
| `YamlOverlays.NeverTornDownAssociates` | internal/testcommon/k8stest/collector.go:53-63 | In particular when no path is a mapping in base and second overlay but not in the first |
| `YamlOverlays.TornDownMappingDiffers` | internal/testcommon/k8stest/collector.go:114-115 | Witness: a mapping, a scalar in its place, a mapping again |
| `YamlOverlays.MergeDistinct` | internal/testcommon/k8stest/collector.go:91-116 | Merging keeps all keys distinct throughout the tree |
| `YamlRoots.AppliedIsFoldedExactly` | internal/testcommon/k8stest/collector.go:53-63 | The loop has the effect of merging all overlays in turn exactly when base and overlays are all mappings, or the mappings behind the last other overlay leave nothing of the base as it then is, or the base is already what the last overlay would replace it by |
| `YamlRoots.LeavesNothingExactly` | internal/testcommon/k8stest/collector.go:91-116 | Overlays in turn leave nothing of a base exactly when its key nodes lead theirs and, key by key, its values are left nothing of or replaced |
| `YamlRoots.FindFolded` | internal/testcommon/k8stest/collector.go:53-63 | After a list of mapping overlays a key holds the base's value, if any, under the overlays' values for it in order |
| `YamlRoots.NodesFolded` | internal/testcommon/k8stest/collector.go:104-109 | ... and the key nodes are the base's, then the overlays' own that the base has not, in order |
| `YamlRoots.RootOverlayAppliesExactly` | internal/testcommon/k8stest/collector.go:62-62 | For one overlay: it wins exactly when base and overlay are mappings, or when it would change nothing |
| `YamlRoots.RootOverlayLost` | internal/testcommon/k8stest/collector.go:62-62 | Witness: a scalar on a mapping and a mapping on a scalar are lost |
| `YamlOverlays.OnlyMappingsApply` | internal/testcommon/k8stest/collector.go:53-63 | Overlays that are not mappings at the root might as well be absent |
| `YamlOverlays.OverlaysCombine` | internal/testcommon/k8stest/collector.go:53-63 | A list of overlays of which none tears down what a later one builds equals one combined overlay |
| `Semver.FormatParses` | internal/changelog-generator/version.go:20-24 | The text of every well-formed version reads back as it |
| `Semver.CanonicalText` | internal/changelog-generator/version.go:20-24 | The canonical form is the text without build metadata, or a shorthand with its missing numbers added |
| `Semver.CanonicalIsStable` | internal/changelog-generator/version.go:20-24 | The canonical form is valid, means the same version and is its own canonical form |
| `Semver.CanonicalIdentifies` | internal/changelog-generator/version.go:45-50 | Canonical forms are equal exactly when the versions are |
| `Precedence.ParsesExactly` | internal/changelog-generator/version.go:20-24 | A text is a version, and of these numbers and identifiers, exactly when it spells them as sections 2, 9 and 10 of Semantic Versioning 2.0.0 allow, or with numbers left out at its end |
| `Precedence.FormatSpelled` | internal/changelog-generator/version.go:20-24 | The canonical text is the three numbers in base ten and the identifiers |
| `Precedence.BaseTen` | internal/changelog-generator/version.go:20-24 | Instances: 145 and 10 are read and written in base ten, highest place first |
| `Semver.PrecedenceIsTotalOrder` | internal/changelog-generator/version.go:34-34 | Precedence of section 11 of Semantic Versioning 2.0.0 is a total order of versions |
| `Precedence.PrecedenceExactly` | internal/changelog-generator/version.go:34-34 | Of two versions' texts one compares lower exactly when the first of major, minor and patch that differs is smaller; or all are equal and only it has a pre-release; or both have one and its identifiers are lower by section 11.4 |
| `Precedence.ComparedExactly` | internal/changelog-generator/version.go:34-34 | The same of any two texts, one that is no version being below every version |
| `Precedence.LeqExactly` | internal/changelog-generator/version.go:52-52 | Texts are ordered by the character at the first place that differs, or by length where there is none |
| `Semver.SortsBeforeIsTotalOrder` | internal/changelog-generator/version.go:52-52 | The order of semver.Sort is a total order of all texts, valid or not |
| `Versions.CanonicalVersionMeaning` | internal/changelog-generator/version.go:15-25 | canonicalVersion is valid exactly for texts valid once trimmed and prefixed, keeps the version, and is idempotent on every text |
| `Versions.SortedUniqueMeaning` | internal/changelog-generator/version.go:41-54 | The list holds exactly the valid versions in canonical form, strictly increasing |
| `Versions.BuildSortedUniqueVersions` | internal/changelog-generator/version.go:41-54 | The loop and the sort compute that list |
| `Versions.CollectUniqueVersions` | internal/changelog-generator/version.go:42-51 | The loop keeps the first occurrence of each valid canonical form |
| `Versions.HighestIsLast` | internal/changelog-generator/version.go:27-54 | The highest version is the last of the sorted list and unique, and empty exactly when no version is valid |
| `Precedence.SortedByPrecedence` | internal/changelog-generator/version.go:41-54 | Each version of the sorted list precedes, as section 11 says, those behind it |
| `Precedence.HighestIsLastInPrecedence` | internal/changelog-generator/version.go:27-39 | The highest version is one the list stands for and precedes none of them; it is empty exactly when the list stands for no version |
| `Precedence.HighestNumbers` | internal/changelog-generator/version.go:27-39 | No version of the list has higher numbers than the highest |
| `Versions.HighestVersion` | internal/changelog-generator/version.go:27-39 | The loop finds it |
| `Versions.FilterCollectorReleaseVersions` | internal/changelog-generator/generator.go:180-192 | The loop keeps the v0 versions, or everything when there are none |
| `Versions.AnnouncedVersions` | internal/changelog-generator/generator.go:41-44 | The announced versions are strictly increasing, are the v0 ones if any is, and are none exactly when the highest version is empty |
| `Versions.HighestAnnouncedExactly` | internal/changelog-generator/generator.go:180-192 | The highest version is announced exactly when it is v0 or nothing is |
| `Versions.HighestMayBeHidden` | internal/changelog-generator/generator.go:180-192 | Witness: any stable version beside any v0 version is the highest and is not announced |
| `ChangelogEntries.FilterEntries` | internal/changelog-generator/filter.go:21-59 | The loop computes versions, repository URLs and the five buckets |
| `ChangelogEntries.TrackVersionsAndUrls` | internal/changelog-generator/filter.go:26-38 | One turn's bookkeeping of versions and first repository URLs |
| `ChangelogEntries.AddToBucket` | internal/changelog-generator/filter.go:44-55 | The entry joins the bucket of its type, and none for another type; no other bucket, version or URL changes |
| `ChangelogEntries.RenderedExactly` | internal/changelog-generator/filter.go:40-55 | Every entry is rendered as often as it was fetched if it is included and has a known source and type, and never otherwise |
| `ChangelogEntries.SectionOrder` | internal/changelog-generator/generator.go:122-132 | A section writes core entries in fetch order, then contrib entries in theirs, none omitted |
| `ChangelogEntries.UpstreamVersionsMeaning` | internal/changelog-generator/filter.go:26-30 | UpstreamVersions are the versions of all entries, included or not, each once, in first-occurrence order |
| `PathPattern.MatchesByLeadingSegments` | internal/changelog-generator/config.go:61-75 | Without a glob a pattern matches exactly the components its "/"-segments lead |
| `PathPattern.GlobMatchesByStub` | internal/changelog-generator/config.go:62-65 | A glob matches exactly the components its "/"-segments lead, the last of them up to the star |
| `PathPattern.GlobMatchesBelow` | internal/changelog-generator/config.go:62-65 | In particular a directory followed by a slash and a star matches exactly what lies strictly below it |
| `PathPattern.MatchTransitiveExactly` | internal/changelog-generator/config.go:61-75 | Matching is transitive for all patterns, globs included, except that behind a glob and the same with another star it needs the component to begin with the glob |
| `PathPattern.StarsDoNotChain` | internal/changelog-generator/config.go:62-65 | Witness: "xy", "x*" and "x**" |
| `PathPattern.MatchDownwardClosed` | internal/changelog-generator/config.go:61-75 | What lies below a matching component matches, globs included |
| `PathPattern.IncludedBySegments` | internal/changelog-generator/filter.go:67-78 | For every configuration: a component is included exactly when no denied pattern covers its segments and it is in the manifest or an allowed one covers them |
| `PathPattern.DenialIsInherited` | internal/changelog-generator/filter.go:67-70 | Denying a component denies all below it, manifest or allowlist notwithstanding |
| `UpstreamRender.BuildIssueLinks` | internal/changelog-generator/generator.go:155-164 | The loop links every issue in order |
| `UpstreamRender.WriteEntry` | internal/changelog-generator/generator.go:134-152 | Headline and indented subtext are appended |
| `UpstreamRender.WriteEntries` | internal/changelog-generator/generator.go:122-132 | The nested loops append the texts of the written entries in order |
| `UpstreamRender.WriteSection` | internal/changelog-generator/generator.go:82-89 | A non-empty bucket adds its header and entries, set off by a line break from what stands there |
| `UpstreamRender.WriteVersionLinks` | internal/changelog-generator/generator.go:60-65 | One block of links to a version, in order |
| `UpstreamRender.GenerateUpstreamContent` | internal/changelog-generator/generator.go:40-118 | The builders compute Generated of the filtered changelog |
| `UpstreamRender.ZeroExactlyWithoutVersions` | internal/changelog-generator/generator.go:36-44 | The content is zero, and its version intro empty, exactly when the highest version is empty |
| `UpstreamRender.IntroReadsBack` | internal/changelog-generator/generator.go:167-178 | Cut at its spaces, the intro gives back its versions with their commas and "and" |
| `UpstreamRender.IntroNamesTheVersions` | internal/changelog-generator/generator.go:57-57 | For generated content those are exactly the announced versions |
| `UpstreamRender.EntriesAppear` | internal/changelog-generator/generator.go:67-117 | The text of every rendered entry stands in the content, breaking changes apart from the others |
| `UpstreamTexts.EntrySpelled` | internal/changelog-generator/generator.go:134-164 | The text of an entry is its component in backticks, a colon, its note, in parentheses the links of its issues in order, and the lines of its subtext, indented |
| `UpstreamTexts.EntryReadsBack` | internal/changelog-generator/generator.go:134-152 | Cut at its backticks it gives the component, and behind the colon note, links and lines |
| `UpstreamTexts.LinksReadBack` | internal/changelog-generator/generator.go:155-164 | Cut at its spaces the list of links gives each issue's link in order |
| `UpstreamTexts.LinesReadBack` | internal/changelog-generator/generator.go:142-151 | The lines behind the first are those of the subtext, indented where they are not empty |
| `UpstreamTexts.VersionsWritten` | internal/changelog-generator/generator.go:46-65 | The links are, for each announced version in order, its release in the core and then in the contrib repository, at the URLs the entries bring or else the well-known ones |
| `UpstreamTexts.FirstUrlExactly` | internal/changelog-generator/filter.go:32-38 | The URL of a repository is the first non-empty one that an entry from it brings |
| `UpstreamTexts.BreakingWritten` | internal/changelog-generator/generator.go:67-72 | The breaking changes are their header and the texts of their entries, without line breaks at the end, or nothing |
| `UpstreamTexts.OtherChangesWritten` | internal/changelog-generator/generator.go:74-110 | The other changes are the headers and entry texts of the non-empty buckets, in the source's order and a line apart, or the note that there are none |
| `UpstreamTexts.WrittenExactly` | internal/changelog-generator/generator.go:122-132 | The entries of a bucket are written core first, each source's in their order, none omitted |
| `UpstreamSection.RemovesTheSection` | internal/changelog-generator/changelog.go:65-76 | A start marker before an end marker: what stays is the trimmed prefix, one blank line and the trimmed suffix, marker-free |
| `UpstreamSection.OneBlankLineStays` | internal/changelog-generator/changelog.go:65-76 | Spaces, tabs and line breaks around the section go with it, and one blank line stays between the texts |
| `UpstreamSection.RemovalIsMarkerFreeExactly` | internal/changelog-generator/changelog.go:65-76 | Removal leaves no marker exactly when there was none or the first start precedes the first end with no marker behind it |
| `UpstreamSection.LeavesAloneExactly` | internal/changelog-generator/changelog.go:65-76 | A text is left alone exactly when a marker is missing or its first end and first start marker stand in this order with one blank line between |
| `UpstreamSection.RemovalIdempotentExactly` | internal/changelog-generator/changelog.go:65-76 | Removing twice is removing once exactly when a marker is missing, or only blanks stand between reversed markers, or what stands behind the section is left alone |
| `UpstreamSection.NoMarkerAcrossSeam` | internal/changelog-generator/changelog.go:75-75 | No marker forms across the blank line between prefix and suffix |
| `UpstreamSection.ReversedMarkersDouble` | internal/changelog-generator/changelog.go:66-75 | With the first end marker in front of the first start marker both stay, and the text between them is there twice |
| `Markers.ReplaceMark` | internal/changelog-generator/changelog.go:81-86 | ReplaceAll of a marker with what must surround it replaces that one place, or nothing if it is not so surrounded |
| `Markers.ReplaceChangesNothingExactly` | internal/changelog-generator/changelog.go:81-86 | A text, such as a content filled in before, is left alone exactly when it does not quote what is replaced, or that is replaced by itself |
| `Markers.ReplacesOneExactly` | internal/changelog-generator/changelog.go:81-86 | Replacing a marker replaces that one place exactly when nothing around it quotes it, or it is replaced by itself |
| `Scaffold.FillsPlaceholder` | internal/changelog-generator/changelog.go:81-86 | One placeholder, whatever stands around it: it gets its content; without content it goes with one of its blank lines, or stays if they are missing |
| `Scaffold.ContentsFilled` | internal/changelog-generator/changelog.go:49-53 | All four contents are put in their places of any scaffold, in place or not, as long as what is filled in so far does not quote the marker replaced next |
| `Scaffold.FillsTheScaffold` | internal/changelog-generator/changelog.go:49-57 | Filling puts every content in its place, changes nothing but the line breaks next to an empty placeholder and to the boundary markers, and leaves no marker |
| `Scaffold.BoundariesGoExactly` | internal/changelog-generator/changelog.go:55-56 | The start marker goes exactly when a line break follows it, the end marker exactly when a blank line then precedes it |
| `Scaffold.BoundariesOfScaffoldGoExactly` | internal/changelog-generator/changelog.go:38-57 | The same of the whole function on any scaffold, with the text it writes |
| `Scaffold.BoundariesStay` | internal/changelog-generator/changelog.go:38-57 | Witness: a section that begins and ends on the lines of its boundary markers keeps both |
| `Scaffold.FillsOneExactly` | internal/changelog-generator/changelog.go:85-85 | A non-empty content takes its placeholder's place and no other exactly when nothing filled in before, or standing around, quotes the placeholder, or the content is the placeholder |
| `Scaffold.QuotedMarkerIsFilled` | internal/changelog-generator/changelog.go:49-53 | Witness: a content that quotes a placeholder filled later is filled too |
| `PrUrl.AcceptsExactly` | internal/changelog-generator/github.go:52-63 | A URL is parsed to a triple exactly when it has the described form with these parts and a number that fits 64 bits |
| `PrUrl.SpelledUrlParses` | internal/changelog-generator/github.go:52-63 | A pull request's URL written out, with or without a slash behind it and in any white space, gives its parts, or the number error from 2^63 on |
| `PrUrl.OtherUrlsAreInvalid` | internal/changelog-generator/github.go:52-63 | Nothing else is taken for a URL |
| `Text.SurroundingSpaceGoes` | internal/changelog-generator/version.go:16-16 | Trimming takes the Unicode white space around a text and nothing else |
| `PrUrl.ParsePrintRoundTrip` | internal/changelog-generator/github.go:52-63 | Every accepted URL's owner and repository are non-empty and slash-free, and its canonical URL parses back to the same triple |
| `ChangelogRun.FetchEntries` | internal/changelog-generator/main.go:67-84 | The loop concatenates the entries of all pull requests or fails with the first that fails |
| `ChangelogRun.RunRewritesExactly` | internal/changelog-generator/main.go:28-113 | The changelog is rewritten exactly when it is no dry run and either there are no URLs, or index, manifest and configuration are readable, every URL is a pull request's that answers and some answer has a valid version; then with the section removed, or the scaffold filled with all entries; else the first failure decides |
| `ChangelogRun.Run` | internal/changelog-generator/main.go:28-113 | The run does that |
| `ChangelogRun.RunFetching` | internal/changelog-generator/main.go:63-112 | The run from its fetch loop on |
| `ChangelogRun.GuardFailsExactly` | internal/changelog-generator/main.go:86-96 | The guard fails exactly when no entry, included or not, brings a valid version |
| `ChangelogRun.RunWithUrlsFills` | internal/changelog-generator/main.go:94-110 | A run with URLs never takes the removal branch; it writes the filled text |
| `ChangelogRun.RunFillsTheScaffold` | internal/changelog-generator/main.go:86-112 | On a scaffold in place it writes every piece in its place and leaves none of the six markers |
| `ReleaseTemplate.TemplateFilled` | internal/changelog-generator/changelog.go:38-57 | The section of .chloggen/summary.tmpl:15-32, filled: its lines stay as they are, the contents stand in their places, an empty breaking section leaves one blank line, and no marker is left |
| `ReleaseTemplate.RunFillsTheTemplate` | internal/changelog-generator/main.go:86-112 | A run with URLs on a changelog with that section writes that text, if nothing around it and no fetched text quotes a marker |
| `ReleaseTemplate.RunRemovesTheTemplate` | internal/changelog-generator/main.go:31-38 | A run without URLs leaves one blank line in place of that section |
| `ChangelogRun.RunWithoutUrlsRemoves` | internal/changelog-generator/main.go:31-38 | A run without URLs removes the section and nothing else |
| `ChangelogRun.IncludedEntriesAppear` | internal/changelog-generator/main.go:86-97 | The text of every included entry of known source and type stands in the content of a run that passes the guard |

## Left out

- HTTP, TLS, certificates, environment and file reads, GitHub's API and retries: requests and answers are labels or parameters.
- URI parsing and `parseConfig` in Retrieve: a session starts from the final URL and whether polling is enabled.
- `NewRetrievedFromYAML`: whether a body parses is a parameter.
- Tickers, timeouts and fairness of `select`: a tick may come at any time, and that a stopped watcher
  ends at last is not said.
- Memory-model races on `newConfig`: each read, write and delete of the map is one atomic step of its own, and unsynchronised
  access is not an error.
- A second Shutdown, which panics: excluded by precondition.
- EecProvider.Provider.Retrieve: states the call without interference; concurrent calls are the runs of EecProtocol.
- EecProvider.Provider.WatchForChanges: likewise, for a script of wake-ups known beforehand.
- AttrsKey.BuildCanonicalAttrsKey: attribute values are given in their string form, so values of different types and one string
  form are one value here; `sort.Strings` is an insertion sort with the same result.
- TelemetryMetrics.Metrics.DeduplicateResources: containers below the payload are values replaced in it rather than shared
  slices, so aliasing inside pdata is not modelled; all datapoint types share one record; after a type clash, where the source
  panics, nothing is said of the payload.
- TelemetryMetrics.Metrics.MergeResources: the 128-bit attribute hash is a parameter, and agreement with the canonical key is assumed only where stated.
- `DeduplicateLogs` and the other helpers of testutil.go: the same keep-first pattern on one level.
- YamlNodes.MergeNodes: requires trees (no alias nodes, no shared nodes), mappings of even length and no nil nodes.
- YamlRoots.AppliedIsFoldedExactly: for keys distinct throughout, as for all laws of merging overlays among themselves.
- Reading, encoding and indenting the YAML text in `GetCollectorConfig`, and its string replacer.
- Semver.FormatParses: numbers are unbounded; text is ASCII where the standard says so and otherwise a sequence of characters, without UTF-8 decoding.
- Versions.BuildSortedUniqueVersions: `semver.Sort` is an insertion sort under its order, of which there is one result.
- The regular-expression engine in `parsePRURL`: the anchored expression is a recogniser written out.
- Scaffold.FillsTheScaffold: for contents that quote no marker, none formed where the version is filled in or the start marker
  goes; what becomes of a quoted marker is said for one replacement at a time.
- ChangelogRun.Run: index, manifest, configuration and what GitHub answers for a pull request are given; the two ways a fetch
  fails are one outcome, and reading and writing the changelog do not fail.
- Parsing of chloggen entries, manifests and versions.yaml: decoding with field trimming.
- `data-ingest-cli`, `mockeec`, `oteltest`, `renderworkloads`, process and port helpers: plumbing around libraries.
