# OOM post-mortems, modelled and proved

A Dafny model of a node agent that turns kernel OOM kills into post-mortem
reports, with proofs of what its deterministic core promises. File-system reads,
clocks and handler calls are inputs of each step, and any read may fail.

| file | models |
|---|---|
| `trend.dfy`, `real_vectors.dfy` | the least-squares memory trend and its projection to the limit |
| `go_strings.dfy`, `cgroup_path.dfy`, `cgroup_printer.dfy`, `cgroup_laws.dfy`, `cgroup_acceptance.dfy` | the cgroup path parser, the paths the kubelet writes, the round trips between them, and exactly which paths are accepted |
| `ring.dfy`, `sampler_spec.dfy`, `sampler.dfy` | the ring buffer and the sampler with delayed eviction |
| `detection.dfy`, `victim_inference.dfy`, `poller_spec.dfy`, `poller_laws.dfy`, `poller.dfy` | the polling detector |
| `pod_cache.dfy` | the pod cache with its graveyard |
| `reports.dfy`, `report_ids.dfy`, `calendar.dfy`, `report_order.dfy`, `process_listing.dfy`, `store.dfy`, `daemon_spec.dfy`, `daemon.dfy` | the report pipeline from event to bounded store, and the order of report IDs |
| `pipeline.dfy`, `backlog.dfy` | sampler, poller, pod cache and daemon composed, over any interleaving of their steps |
| `trajectory_rows.dfy`, `byte_units.dfy` | the row selection and unit scaling of the text report |
| `oom_event.dfy` | the 112-byte wire format of a traced kill |
| `common.dfy`, `cgroup_stats.dfy` | shared types: options, 64-bit integers, saturating durations, memory readings |

Objects the program updates in place are classes whose methods are proved against
functions on values; what holds over whole runs is proved of those functions. A run
is an arbitrary sequence of steps: for the sampler, poller and pod cache each run is
also described without any stored state (last retained samples, strict rises of a
trace, newest event in a log) and the two descriptions are proved equal.

## Conventions

- Arithmetic on `float64` is exact arithmetic on `real`.
- An instant is a number of nanoseconds since the start of 1970; `time.Time.Sub`
  saturates as in Go.
- A Go string is a sequence of characters standing for its bytes. Lower-casing
  touches ASCII letters only, which is all a comparison with a tier's name can see.
- Map iteration picks keys in any order, so results hold for every order. A library
  sort is an insertion sort; where Go's sort is unstable, the first element is proved
  to be the same for every sorted order.
- A report's process entries have the five fields a listing copies.
- Methods run as atomic steps, as they do under their lock. A missing `cgroup` or
  `proc` reader is a reading that fails.

## Where the code and its comments differ

The model follows the code.

- The runtime-prefix table is said to depend on its order; it does not
  (`CgroupPrinter.TableOrderIrrelevant`).
- The parser is said to reject everything outside the kubelet's hierarchy. Out
  there it rejects a path exactly when it does not end in a pod's name and a
  container's in one driver's style (`CgroupAcceptance.RejectedOutsideExactly`); `/machine/podman/worker`
  is taken for container `worker` of pod `man` (`CgroupAcceptance.ForeignPathsAccepted`).
- Eviction is said to drop state for cgroups that no longer exist; a process snapshot
  stays when the cgroup's statistics never parsed (`PollerLaws.SnapshotSurvivesExactlyWhen`).
- A host PID match is said to be preferred; the first match in list order wins, so the
  victim's host PID stays listed exactly when an earlier entry goes by container PID,
  or when the PID is listed twice (`ProcessListing.HostPidLeaves`,
  `ProcessListing.EarlierNsPidWins`).
- The first and last readings are said never to be displaced; they stay exactly when
  there are three rows or more, or one of them is the peak
  (`TrajectoryRows.EndsKeptExactly`, `TrajectoryRows.TwoRowsLoseTheFirst`). The program
  asks for eight.
- Report IDs are said to sort chronologically, at internal/daemon/daemon.go:322 and
  docs/reference/api.md:152.
  Kills of different seconds do, through the year 9999
  (`DaemonSpec.ReportsSortChronologically`). Within one second the unpadded numbers
  decide: an earlier report sorts first exactly when its number, zero-padded to the
  length of the later one's, does not exceed it (`DaemonSpec.ReportsSortExactlyWhen`),
  so `-10` sorts before `-9` (`ReportOrder.TenSortsBeforeNine`).
- A trajectory is said to be absent only when the container appeared and died inside one
  sample window; it is absent exactly when no pass has read the path since it was last
  forgotten (`Pipeline.TrajectoryIsRecorded`), as when a container's kill waits in the
  channel while the sampler misses it for a whole retention window
  (`Backlogs.SampledYetEmpty`).
- A deleted pod is said to stay resolvable for the grace period; it does exactly when
  no clock read since the delete was beyond that period (`PodCache.LookupRefinesLogExactly`).
  Go's own clock readings are monotonic, so only an injected clock can go back.

## Model

| member | source | states |
|---|---|---|
| `Trend.FitIsBest` | internal/sampler/trend.go:84-91 | when two samples differ in time, the fitted slope and intercept leave a strictly smaller residual sum of squares than every other line |
| `Trend.BestLineIsFit` | internal/sampler/trend.go:84-91 | no other slope or intercept is best, so a promise of "a best line" pins the fitted one |
| `Trend.ResidualDecomposition` | internal/sampler/trend.go:79-97 | every line's residual in terms of the centred moments and its distance from the centroid |
| `Trend.VariationSplits` | internal/sampler/trend.go:88-105 | total variation is the residual of the fit plus slope squared times the variance of time |
| `Trend.RSquaredRange` | internal/sampler/trend.go:88-106 | unclamped R-squared is already within [0,1]; it is 1 exactly for readings on a line, 0 exactly for a flat slope through varying readings |
| `Trend.FitIgnoresOrigin` | internal/sampler/trend.go:67-83 | the origin passed in changes neither slope nor R-squared while no difference saturates |
| `Trend.TrendFollowsUsage` | internal/sampler/trend.go:42-62 | over a time-sorted history the analysed rate is never negative when usage never falls, and never positive, with nothing projected, when it never rises |
| `Trend.VariedTimes` | internal/sampler/trend.go:47-55 | measured from the first sample, the fit is undefined exactly when every timestamp coincides, even for spans a Duration cannot hold |
| `Trend.FitSlope` | internal/sampler/trend.go:67-107 | for any samples, none included: false exactly when no two times differ; otherwise the slope of a best line and an R-squared that clamping leaves alone |
| `Trend.Sums` | internal/sampler/trend.go:68-77 | the first loop computes the two sums |
| `Trend.Moments` | internal/sampler/trend.go:79-84 | the second loop computes covariance and variance about the means |
| `Trend.SumsOfSquares` | internal/sampler/trend.go:90-100 | the third loop computes residual and total sums of squares |
| `Trend.ProjectTimeToLimit` | internal/sampler/trend.go:110-127 | a projection exists exactly when the line passes a finite non-zero limit within the longest Duration, and names the last nanosecond before it does |
| `Trend.Analyse` | internal/sampler/trend.go:42-62 | the trend of any samples: blank below two samples or without distinct times, else the best line's rate, its R-squared, and the projection from the last sample |
| `Trend.SteadyGrowth` | internal/sampler/trend.go:42-62 | usage growing by one rate of bytes per 1 000 000 000 nanoseconds is reported at that rate with a perfect fit, from two samples on |
| `Trend.ThroughAllPoints` | internal/sampler/trend.go:84-106 | a line through all points is the fitted line |
| `Trend.RSquaredMeasures` | internal/sampler/trend.go:88-106 | R-squared times the total variation is what the slope explains |
| `CgroupStats.MemoryStats.UsageRatio` | internal/cgroup/cgroup.go:135-144 | a ratio within [0,1]: zero without a limit, usage over the limit up to it, and 1 exactly at or over a finite non-zero limit |
| `CgroupPath.SplitPath` | internal/correlate/cgrouppath.go:316-325 | the loop yields exactly the non-empty parts of the split |
| `CgroupPath.SegmentsConcat` | internal/correlate/cgrouppath.go:316-325 | a slash anywhere separates: segments of the halves side by side |
| `CgroupPath.SegmentsOfPath` | internal/correlate/cgrouppath.go:316-325 | splitting an absolute path gives back the segments it was made of |
| `CgroupPath.SegmentsNormalise` | internal/correlate/cgrouppath.go:316-325 | the segments of any path are non-empty and slash-free, and the path they make splits into them again |
| `CgroupPath.NamedTiers` | internal/correlate/cgrouppath.go:283-313 | a segment names Burstable or BestEffort and never Guaranteed, which is told by absence |
| `CgroupPath.InKubepodsTree` | internal/correlate/cgrouppath.go:195-211 | true exactly when some segment contains kubepods |
| `CgroupPath.AnyInTree` | internal/correlate/cgrouppath.go:204-211 | the loop over segments finds kubepods exactly when one contains it |
| `CgroupPath.ParseContainerSegment` | internal/correlate/cgrouppath.go:255-278 | the table loop finds what a first-match search finds; an empty ID or a structural name is rejected |
| `CgroupPath.ParseQoS` | internal/correlate/cgrouppath.go:283-313 | the loop returns the first tier named, else Guaranteed inside the tree and Unknown outside |
| `CgroupPath.ParseContainerScope` | internal/correlate/cgrouppath.go:138-162 | a pod segment above a container segment, read as the specified scope or rejected |
| `CgroupPath.ParsePodScope` | internal/correlate/cgrouppath.go:171-188 | a last pod segment inside the tree, read as the specified scope or rejected |
| `CgroupPath.ParseCgroupPath` | internal/correlate/cgrouppath.go:118-188 | container scope first, then pod scope, then rejection; the path is carried along |
| `CgroupPrinter.SystemdParses` | internal/correlate/cgrouppath.go:106-117 | every path the kubelet writes under systemd parses, with any ancestors and flattened parent: driver, level, container and runtime always come back, the UID with underscores read as dashes, the tier as first named |
| `CgroupPrinter.SystemdRoundTrip` | internal/correlate/cgrouppath.go:118-249 | parsing undoes systemd printing exactly when the UID has no underscore and no ancestor is named after another tier |
| `CgroupPrinter.CgroupfsRoundTrip` | internal/correlate/cgrouppath.go:118-278 | parsing undoes cgroupfs printing exactly when the UID does not end in .slice, the container ID has no dot and no pod prefix, and neither an ancestor nor a Guaranteed pod's container ID is named after another tier |
| `CgroupPrinter.SystemdPodSegment` | internal/correlate/cgrouppath.go:220-242 | the last -pod of a systemd name separates the UID, whatever precedes it |
| `CgroupPrinter.AnchoredName` | internal/correlate/cgrouppath.go:286-296 | the last kubepods- of a flattened name precedes the tier |
| `CgroupPrinter.TableOrderIrrelevant` | internal/correlate/cgrouppath.go:87-97 | any order of the runtime prefixes gives the same answers, contrary to the comment that order matters |
| `CgroupPrinter.ContainerNeedsNoTree` | internal/correlate/cgrouppath.go:138-162 | whatever lies above them, in the tree or out of it, a cgroupfs pod directory and a readable ID below it are read as that container |
| `CgroupLaws.AcceptedShape` | internal/correlate/cgrouppath.go:118-249 | an accepted path has a pod UID; exactly container scopes have a container ID; pod scopes lie in the tree; a systemd UID has no underscore; Unknown tier means outside the tree |
| `CgroupLaws.SlashesIrrelevant` | internal/correlate/cgrouppath.go:316-325 | doubled, leading and trailing slashes change nothing but the recorded path |
| `CgroupLaws.ContainerAndPodAgree` | internal/correlate/cgrouppath.go:138-188 | inside the tree, the directory above an accepted container parses as the pod scope of the same pod and driver |
| `CgroupLaws.PodSegmentIsNoContainer` | internal/correlate/cgrouppath.go:220-278 | a segment that names a pod is never read as the container of the segment above it |
| `CgroupAcceptance.AcceptedExactly` | internal/correlate/cgrouppath.go:118-188 | for every string: accepted exactly when it ends in a pod's and a container's name in one driver's style, anywhere, or in a pod's name inside the tree; the former are exactly the container scopes |
| `CgroupAcceptance.RejectedOutsideExactly` | internal/correlate/cgrouppath.go:99-103 | outside the kubelet's tree a path is rejected exactly when it does not end in a pod's and a container's name |
| `CgroupAcceptance.PodNameExactly` | internal/correlate/cgrouppath.go:220-249 | the raw names read as pods, under either driver |
| `CgroupAcceptance.ContainerNameExactly` | internal/correlate/cgrouppath.go:255-278 | the raw names read as containers, under either driver |
| `CgroupAcceptance.ForeignPathsAccepted` | internal/correlate/cgrouppath.go:99-103 | two paths outside the tree, one in each driver's style, and the containers they are taken for |
| `CgroupAcceptance.RuntimeScopes` | internal/correlate/cgrouppath.go:87-97 | for every non-empty ID the scopes cri-containerd-, containerd-, crio- and docker- plus the ID are that container of containerd, containerd, CRI-O and Docker |
| `CgroupAcceptance.RuntimeOfPath` | internal/correlate/cgrouppath.go:138-162 | the same read off any path whose last names are a systemd pod's and such a scope |
| `CgroupAcceptance.RuntimeTold` | internal/correlate/cgrouppath.go:255-270 | the runtime of any accepted systemd container is told exactly by how its last name begins |
| `CgroupAcceptance.TierIsFirstNamed` | internal/correlate/cgrouppath.go:283-313 | Burstable or BestEffort exactly when the first segment naming any tier names it; with none, Guaranteed in the tree and Unknown outside |
| `CgroupAcceptance.TierInAnyCase` | internal/correlate/cgrouppath.go:298-304 | under cgroupfs a segment names a tier exactly when it spells it in any mixture of case |
| `SampleRing.Ring.constructor` | internal/sampler/ring.go:35-40 | an empty ring of the given positive capacity |
| `SampleRing.Ring.Add` | internal/sampler/ring.go:43-49 | contents become the last capacity elements of the old contents and the new sample |
| `SampleRing.Ring.Len` | internal/sampler/ring.go:52-57 | how many samples are buffered |
| `SampleRing.Ring.Samples` | internal/sampler/ring.go:64-70 | the buffered samples, oldest first |
| `SampleRing.Ring.Latest` | internal/sampler/ring.go:73-79 | the last of the buffered samples, or nothing |
| `SamplerSpec.RunRetains` | internal/sampler/sampler.go:129-205 | over any run of passes, any failed readings and any clock: a path is tracked exactly while seen and not missed for a retention window; its history is the last historySize of the samples recorded since it was last forgotten; vanishedAt dates the first missed pass |
| `SamplerSpec.StepIsPerPath` | internal/sampler/sampler.go:129-205 | one pass acts on each path independently |
| `SamplerSpec.DroppedExactlyWhen` | internal/sampler/sampler.go:183-205 | a history is dropped at a pass exactly when that pass misses the path, is not the first to, and comes at least retention after the first that did |
| `SamplerSpec.HistorySorted` | internal/sampler/sampler.go:209-218 | under a clock that never goes back every history is time-sorted, as Analyse requires |
| `SamplerSpec.HistoryWasRead` | internal/sampler/sampler.go:129-174 | over any run, every sample of a history is a reading some pass took of that path: its time, statistics and pressure |
| `SamplerSpec.NewestIsRead` | internal/sampler/sampler.go:129-174 | the newest sample of a path is the newest pass's last reading of it |
| `Sampler.Sampler.Collect` | internal/sampler/sampler.go:129-160 | the maps after a pass are the specified step; a failed discovery changes nothing |
| `Sampler.Sampler.Record` | internal/sampler/sampler.go:163-174 | one path's history gains the sample, cut to historySize; a new path gets a ring; other paths keep theirs |
| `Sampler.Sampler.VisitTracked` | internal/sampler/sampler.go:187-204 | the eviction loop, in any visiting order, keeps, dates or drops each tracked path as specified |
| `Sampler.Sampler.Evict` | internal/sampler/sampler.go:183-205 | eviction as a function of the histories and vanishing dates |
| `Sampler.Sampler.History` | internal/sampler/sampler.go:209-218 | the tracked path's samples |
| `Sampler.Sampler.Latest` | internal/sampler/sampler.go:221-230 | the last element of History |
| `Sampler.Sampler.TrendOf` | internal/sampler/sampler.go:233-239 | the analysis of History |
| `PollerSpec.EventsAreRises` | internal/detector/poller.go:157-241 | over any run of primes and polls, any discoveries and failed reads: a cgroup's events are exactly the strict rises between neighbouring successful readings since it was last rediscovered, each carrying the value read, its time and its group-kill flag |
| `PollerSpec.PassIsPerPath` | internal/detector/poller.go:207-241 | the same within one pass, cgroup by cgroup |
| `PollerSpec.Published` | internal/detector/poller.go:193-203 | what is sent is the first so many events, all of them if cancellation does not come before |
| `PollerLaws.RisesTelescope` | internal/detector/poller.go:207-241 | in one life under a counter that never falls the reported rises add up to last reading minus baseline |
| `PollerLaws.KillCountsIncrease` | internal/detector/poller.go:220-235 | reported kill counts strictly increase from above the baseline to the last reading, so no kill is replayed |
| `PollerLaws.NoKillReplayed` | internal/detector/poller.go:105-241 | over any primed run with any rediscoveries: a cgroup's reports are those of its lives, the stretches of its trace between disappearances, one after another; in each life whose counter never falls, counts climb from the first reading to the last and every kill between is accounted for once |
| `PollerLaws.PollReportsExactlyWhen` | internal/detector/poller.go:207-241 | one more poll of a run reports a cgroup, once and with the count read, exactly when the counter charged to the cgroup itself has risen: the local one where there is one, whatever happens below, else the subtree's |
| `PollerLaws.RisesOnRawCounters` | internal/cgroup/cgroup.go:124-131 | the same of any two neighbouring readings of a run |
| `PollerLaws.TraceAligned` | internal/cgroup/cgroup.go:124-131 | every reading of a trace is the local counter of the statistics read, or the subtree's without one |
| `PollerLaws.KillsFallIntoLives` | internal/detector/poller.go:207-241 | no rise spans a disappearance |
| `PollerLaws.LivesJoin` | internal/detector/poller.go:346-358 | the lives, joined at the disappearances, are the trace |
| `PollerLaws.FailedReadOnlyDelays` | internal/detector/poller.go:211-218 | a pass that discovers but cannot read a cgroup leaves its trace alone |
| `PollerLaws.SnapshotsAreTraced` | internal/detector/poller.go:322-358 | the snapshot held is the last listing, unless a poll has missed the path while its counter was known |
| `PollerLaws.SnapshotSurvivesExactlyWhen` | internal/detector/poller.go:346-358 | a snapshot outlives its cgroup exactly when no statistics were read in its last life |
| `PollerLaws.UnparsedSnapshotLeaks` | internal/detector/poller.go:345-358 | a run in which that happens |
| `PollerLaws.EventsAreExplained` | internal/detector/poller.go:230-237 | every event comes from one entry of the pass, and its victim from earlier snapshots and that entry's survivors |
| `PollerLaws.NamedVictimWasSeen` | internal/detector/poller.go:274-313 | a named victim was listed for that cgroup by an earlier pass, has left it, and is the heaviest, lowest PID first, of all who left |
| `PollerLaws.KnownVictimsWereSeen` | internal/detector/poller.go:157-320 | over any run, with or without process listings: a victim an event names was listed for that cgroup by an earlier pass and has left it; none who left held more memory, nor as much under a lower PID |
| `VictimInference.InferenceDetermined` | internal/detector/poller.go:291-312 | exactly one victim can be inferred from a snapshot keyed by PID |
| `VictimInference.SortedHead` | internal/detector/poller.go:301-312 | whatever order candidates are gathered in and however they are sorted, the heaviest comes first |
| `VictimInference.InferVictim` | internal/detector/poller.go:274-313 | the inferred victim, on the processes' fields: known exactly when some process of the snapshot is gone, then one of those with all its fields, and none gone held more memory, nor as much under a lower PID; otherwise blank |
| `VictimInference.InferredIsHeaviestGone` | internal/detector/poller.go:264-312 | the same of whatever can be inferred |
| `VictimInference.HeaviestOnFields` | internal/detector/poller.go:301-309 | heaviest means most resident bytes, the lower PID among equals |
| `VictimInference.LastOfPid` | internal/detector/poller.go:322-343 | of several listed entries with one PID the last is kept |
| `VictimInference.ByPid` | internal/detector/poller.go:336-341 | a listing indexed by PID: every entry under its own PID, every listed PID present |
| `Poller.Poller.Prime` | internal/detector/poller.go:157-176 | baselines and snapshots recorded without events |
| `Poller.Poller.Poll` | internal/detector/poller.go:180-203 | the state after a pass as specified, and the events sent: all of them, or the first so many when the context is cancelled; a failed discovery changes nothing |
| `Poller.Poller.DetectAll` | internal/detector/poller.go:207-241 | the detection loop |
| `Poller.Poller.RefreshSnapshots` | internal/detector/poller.go:322-343 | each listable cgroup's snapshot replaced, the others kept |
| `Poller.Poller.Evict` | internal/detector/poller.go:346-358 | walking the counters in any order, state of undiscovered paths with a counter is dropped |
| `PodCache.LookupRefinesLog` | internal/k8s/podcache.go:171-262 | under a clock that never goes back, a lookup answers from the newest event about the pod alone, and sweeping is unobservable |
| `PodCache.LookupIsAnswerSwept` | internal/k8s/podcache.go:171-262 | under any clock, a lookup answers from the log with each grave also having to outlast every sweep since |
| `PodCache.UnsweptLookupIsAnswer` | internal/k8s/podcache.go:171-247 | without sweeps the answer needs no clock assumption |
| `PodCache.SweepIsLaterLookup` | internal/k8s/podcache.go:255-262 | a sweep only moves the clock forward for graves |
| `PodCache.LiveIsLiveAfter` | internal/k8s/podcache.go:199-248 | the live map holds a pod exactly when its newest event is an upsert, with that upsert's info |
| `PodCache.LiveAndBuriedDisjoint` | internal/k8s/podcache.go:199-248 | no pod is live and buried at once, and right after a delete every grave is still open |
| `PodCache.LookupRefinesLogExactly` | internal/k8s/podcache.go:171-262 | for every log and clock: a lookup gives the log's answer exactly when there is none, the pod is live, or neither the lookup nor any sweep since the delete read a clock beyond the grace period; otherwise it gives nothing |
| `PodCache.ClockMattersToLookup` | internal/k8s/podcache.go:255-262 | any grace period, and any clock that goes back into it after a sweep beyond it, loses the pod |
| `PodCache.UpsertIsFound` | internal/k8s/podcache.go:199-215 | whatever came before, an upserted pod is found from then on; a tombstone or an unknown object changes nothing |
| `PodCache.RemovedIsFoundInGrace` | internal/k8s/podcache.go:218-262 | whatever came before, a removed pod, handed over itself or in a tombstone, is found up to and including the end of its grace period, as last known live, else as handed over; an unknown object changes nothing |
| `PodCache.Cache.Upsert` | internal/k8s/podcache.go:199-215 | the maps after an upsert; anything but a pod is ignored |
| `PodCache.Cache.Remove` | internal/k8s/podcache.go:218-248 | the maps after a delete or a tombstone, sweep included |
| `PodCache.Cache.Sweep` | internal/k8s/podcache.go:255-262 | exactly the expired graves go, in any visiting order |
| `PodCache.Cache.LookupPod` | internal/k8s/podcache.go:171-183 | live first, then an open grave |
| `Store.Memory.constructor` | internal/store/store.go:70-79 | an empty store, of 256 reports when no positive capacity is given |
| `Store.Memory.Put` | internal/store/store.go:82-100 | replace in place, or append and drop the oldest of a full store; the index stays exact |
| `Store.Memory.Reindex` | internal/store/store.go:103-108 | the rebuilt index is exactly where a linear search would look |
| `Store.Memory.Get` | internal/store/store.go:111-120 | equals linear search |
| `Store.Memory.List` | internal/store/store.go:123-139 | the stored reports with the namespace, pod and container asked for, newest first; every one, unless the limit is reached, and then the newest of them |
| `Store.ScanPicks` | internal/store/store.go:26-37 | the positions a listing is read from, newest down, on the identity's own fields |
| `Store.ReversedMatchesAreScan` | internal/store/store.go:127-138 | collect, reverse and truncate is that scan |
| `Store.IndexedSearch` | internal/store/store.go:111-120 | an exact index implies distinct IDs and finds what search finds |
| `Store.PutsStayIndexed` | internal/store/store.go:82-100 | any puts, duplicates included: distinct IDs, within capacity, the newest findable |
| `Store.FreshPutsKeepLast` | internal/store/store.go:82-100 | puts that never repeat an ID never replace and leave exactly the last capacity reports in order |
| `ReportIds.ReportIdDeterminesParts` | internal/daemon/daemon.go:324-326 | an ID determines its timestamp and its number, whatever the timestamp text |
| `ReportIds.DecimalRoundTrip` | internal/daemon/daemon.go:324-326 | a formatted number reads back |
| `ReportOrder.DecimalsSortExactlyWhen` | internal/daemon/daemon.go:322-326 | of two unpadded numbers the smaller sorts first exactly when, zero-padded to the length of the larger, it does not exceed it |
| `ReportOrder.StampsSort` | internal/daemon/daemon.go:324-326 | timestamps in the ID's layout sort as the seconds they name, through the year 9999 |
| `ReportOrder.StampsAtSort` | internal/daemon/daemon.go:324-326 | the formatted UTC timestamps of any two instants sort as the seconds they fall in |
| `Calendar.BeforeIsEarlier` | internal/daemon/daemon.go:324-326 | valid Gregorian UTC times are ordered, field by field, as the seconds they name, so each second has one name |
| `Calendar.CivilOf` | internal/daemon/daemon.go:324-326 | every second from year zero on has such a name, leap years included |
| `Calendar.DaysBeforeYearCounted` | internal/daemon/daemon.go:324-326 | the days before a year, by counting leap years |
| `Calendar.EpochIs1970` | internal/daemon/daemon.go:324-326 | the second instants are counted from is the start of 1970 |
| `Calendar.MonthLengths` | internal/daemon/daemon.go:324-326 | how many days each month has, in leap years and others |
| `Calendar.SecondsCounted` | internal/daemon/daemon.go:324-326 | an instant falls in a second exactly between its two multiples of 1 000 000 000 nanoseconds |
| `ReportOrder.IdsSortChronologically` | internal/daemon/daemon.go:322-326 | IDs of different seconds sort as those seconds; IDs of one second as the zero-padding condition on their numbers says |
| `ReportOrder.NeighboursSortExactlyWhen` | internal/daemon/daemon.go:322-326 | consecutive IDs of one second sort in order exactly when their numbers have equally many digits |
| `ReportOrder.TenSortsBeforeNine` | internal/daemon/daemon.go:322-326 | the tenth ID of a second sorts before the ninth |
| `ReportOrder.FirstId` | internal/daemon/daemon.go:324-326 | the first ID, made at the start of 1970, letter by letter |
| `DaemonSpec.ReportsSortExactlyWhen` | internal/daemon/daemon.go:322-326 | over any run: of two reports stamped in one width, the earlier made sorts first exactly when its timestamp does or, within one second, when its zero-padded number does not exceed the other's |
| `DaemonSpec.ReportsSortChronologically` | internal/daemon/daemon.go:322-326 | over any run whose kills fall in the years of four digits: IDs of kills of different seconds sort exactly as the instants of the kills; within one second as the numbers do |
| `DaemonSpec.IdsCollideExactlyWhen` | internal/daemon/daemon.go:322-326 | two reports share an ID exactly when timestamps agree and the 64-bit sequence wrapped a whole number of times between them |
| `DaemonSpec.StoreHoldsLastReports` | internal/daemon/daemon.go:141-177 | up to 2^64 reports IDs are pairwise distinct and the store holds exactly the last of them |
| `DaemonSpec.Conservation` | internal/daemon/daemon.go:141-190 | reports plus skips equal events; unattributed are exactly the parser's rejections inside the tree; none when other kills are included |
| `DaemonSpec.ReportOnFields` | internal/daemon/daemon.go:201-317 | the peak is the largest of the last sampled high-water mark, the live one and the victim's resident bytes, those that are there; the limit is the last sampled one, else the live one, else zero; the event's group-kill flag wins |
| `DaemonSpec.ResolveFollowsParse` | internal/correlate/resolver.go:93-121 | a path resolves exactly when it parses; namespace, pod, container and image are those of the pod of the parsed UID and its container of the parsed ID, or blank; a pod-level path borrows no container name |
| `Daemon.Daemon.Handle` | internal/daemon/daemon.go:141-177 | the run grows by this event and every counter and the store stay what the run says |
| `Daemon.Daemon.BuildReport` | internal/daemon/daemon.go:181-233 | skips exactly what parses to nothing and was not asked for; every field of the report, with peak and limit on the readings' own fields |
| `Daemon.Daemon.ApplyLiveStats` | internal/daemon/daemon.go:299-317 | the peak grows to the live high-water mark and the victim's resident bytes where those are larger, and to nothing else; a live limit fills a missing one |
| `Daemon.Daemon.ApplyHistory` | internal/daemon/daemon.go:203-212 | trajectory, trend, peak and limit from the sampled history |
| `Daemon.Daemon.NextId` | internal/daemon/daemon.go:324-326 | the sequence advances by one modulo 2^64 and follows the UTC timestamp of the given instant in the ID |
| `Daemon.Daemon.PipelineHolds` | internal/daemon/daemon.go:141-190 | for any daemon short of 2^64 events: distinct IDs, the last reports stored in order, processed plus skipped equal events, unattributed exact |
| `Pipeline.ReportsAreRises` | internal/daemon/daemon.go:104-190 | over any interleaving of sampler, poller, pod cache and daemon: the reports filed under a path that parses tell, one for one and in order, the strict rises of that cgroup's own counter trace, all of them once all events are handled; nothing is filed under a path that does not, unless asked for |
| `Pipeline.HandledInOrder` | internal/daemon/daemon.go:104-139 | what has been handled is a run of the daemon over the first of the poller's events, in order |
| `Pipeline.TrajectoryIsRecorded` | internal/daemon/daemon.go:201-211 | a report's trajectory is the last historySize samples of its path since it was last forgotten, and is empty exactly when the path is not retained |
| `Pipeline.IdentityIsAnswered` | internal/correlate/resolver.go:93-121 | under a clock that never goes back, a report names exactly the pod the informer's log answers for, and its container |
| `Pipeline.VictimWasSeen` | internal/daemon/daemon.go:192-199 | a victim a report names was listed for that very cgroup by an earlier pass of the poller, has left it since, and was the heaviest of those who left |
| `Backlogs.SampledYetEmpty` | internal/daemon/daemon.go:201-203 | for any sampled path and any setup, a run in which its kill is handled with an empty trajectory |
| `ProcessListing.ProcessesFrom` | internal/oom/report.go:165-188 | the listing is the process list less its first match, order kept, with that match's basis; unchanged with basis none when nothing matches |
| `ProcessListing.ListingOnFields` | internal/oom/report.go:165-202 | on the processes' fields: the first entry with the victim's host PID, or its otherwise unused container PID, goes; the basis is the host PID whenever that matches; nothing goes exactly when nobody matches |
| `ProcessListing.NSPidIsUnambiguous` | internal/oom/report.go:213-224 | true exactly when one listed process carries the container PID |
| `ProcessListing.ListingLosesAtMostOne` | internal/oom/report.go:165-188 | at most one process leaves, and the basis is none exactly when none did |
| `ProcessListing.NsPidRemovalIsExact` | internal/oom/report.go:165-224 | a removal by container PID means no remaining process shares it |
| `ProcessListing.HostPidLeaves` | internal/oom/report.go:165-188 | the victim's host PID is still listed afterwards exactly when an earlier process is the sole container-PID match, or the PID is listed again |
| `ProcessListing.EarlierNsPidWins` | internal/oom/report.go:169-202 | a listing where an earlier container-PID match goes and the host-PID match stays |
| `Reports.TrajectoryFrom` | internal/oom/report.go:100-119 | one point per sample, in order, an absent limit flattened to zero |
| `Reports.PointsOnFields` | internal/oom/report.go:100-119 | a point has its sample's time, usage and pressure, its limit with none written as zero, and usage over the limit as ratio, at most one |
| `TrajectoryRows.TrajectoryRows` | internal/render/text.go:219-261 | short input unchanged; else the evenly spaced rows, with the first peak in place of the nearest interior row when missed; of two rows the first gives way to the peak |
| `TrajectoryRows.KeepPeak` | internal/render/text.go:238-254 | the substitution, its anchor repairs, and a sort that changes nothing |
| `TrajectoryRows.EvenRows` | internal/render/text.go:233-236 | the evenly spaced indices, one per row |
| `TrajectoryRows.SelectionSpread` | internal/render/text.go:231-261 | limit rows at strictly increasing indices, both ends and the peak among them, no gap of two full strides |
| `TrajectoryRows.EndsKeptExactly` | internal/render/text.go:245-251 | the last reading always stays, the first exactly when there are three rows or more or one end is the peak |
| `TrajectoryRows.TwoRowsLoseTheFirst` | internal/render/text.go:245-251 | three readings of which two rows drop the first |
| `TrajectoryRows.EvenStep` | internal/render/text.go:233-236 | neighbouring even indices are at least one and at most a rounded-up stride apart |
| `TrajectoryRows.EvenIndexExactly` | internal/render/text.go:233-236 | each even index is the last one not beyond its share of the way |
| `TrajectoryRows.AnchoredNearest` | internal/render/text.go:239-251 | moving the choice off an end still gives the nearest interior row |
| `TrajectoryRows.FindNearest` | internal/render/text.go:239-244 | the earliest of the nearest rows |
| `TrajectoryRows.FindPeak` | internal/render/text.go:224-229 | the first reading of the highest usage |
| `TrajectoryRows.Downsample` | internal/render/text.go:272-285 | exactly the evenly spaced rows |
| `ByteUnits.Scale` | internal/render/text.go:355-366 | the divisor stays in 64 bits, is 1024 to the exp+1, and brings the count to at least 1 and below 1024, or below 16384 in the largest unit |
| `ByteUnits.FitsOnce` | internal/render/text.go:355-366 | only one unit fits a count |
| `ByteUnits.LargerCountLargerUnit` | internal/render/text.go:355-366 | a larger count never gets a smaller unit |
| `OomEvent.DecodeEncode` | internal/detector/ebpf.go:47-79 | decoding inverts the encoder written at the C struct's offsets, two's-complement fields included |
| `OomEvent.EncodeDecode` | internal/detector/bpf/oomtracer.bpf.c:39-57 | exactly 112-byte samples decode, and encoding gives them back exactly when the padding is zero |
| `OomEvent.EncodedFields` | internal/detector/bpf/oomtracer.bpf.c:39-57 | every field lands at its offset |
| `OomEvent.DecodedFields` | internal/detector/ebpf.go:47-79 | every field of a decoded sample, byte by byte, least byte first |
| `OomEvent.Text` | internal/detector/ebpf.go:83-88 | a name's characters are its bytes |
| `OomEvent.Comm` | internal/detector/ebpf.go:83-88 | the name is the NUL-free prefix that a NUL or the end of the field stops |
| `OomEvent.CommUndoesPadding` | internal/detector/ebpf.go:83-88 | a padded name comes back whole |
| `OomEvent.RssExactWhen` | internal/detector/ebpf.go:94-100 | the resident total is exact exactly when it fits 64 bits |
| `OomEvent.TracedKillSurvivesTheWire` | internal/detector/ebpf.go:67-121 | what the kernel writes for a named process is what the event says, field by field: the time exactly below 2^63 nanoseconds of uptime, the resident bytes exactly when they fit 64 bits, the rest always |

## Left out

- Floating-point rounding: the fit and the projection are exact reals, so nothing is said of the last bits of a `float64`.
- Daemon.Daemon.NextId: takes the text of the timestamp as an input for instants whose year has not four digits, where uniqueness holds and order is not claimed.
- ByteUnits.Scale: stops at the divisor and the unit; the decimal rendering of the quotient is not modelled.
- TrajectoryRows.TrajectoryRows: requires a limit other than one for longer input, where the program divides by zero.
- Poller.Poller.Poll: takes the number of sends before the context is cancelled as an input and returns what was sent; the blocking of a full channel is not modelled.
- Pipeline: composes the polling detector; a detector's channel hands its events over in order and loses none before cancellation.
- Reading and walking the cgroup and proc file systems, PSI parsing and the inode index of cgroup IDs.
- The eBPF program, its ring buffer and the choice of detector.
- Goroutines, tickers, channels, locks and context cancellation.
- The pod informer, the copying of pod fields and the sync timeout.
- Report callbacks, logging, HTTP, CLI, TUI, JSON and the rest of the text report.
