/** What the daemon makes of each kill event, and what holds over any run of them. */
module DaemonSpec {
  import opened Common
  import opened CgroupStats
  import opened CgroupPath
  import opened Detection
  import PodCache
  import opened ProcessListing
  import opened Reports
  import opened ReportIds
  import opened ReportOrder
  import opened Store
  import opened Calendar
  import Trend

  /** What the daemon can read while it handles one event; any of it may be absent. */
  datatype Surroundings = Surroundings(
    oddStamp: string,  // the event's timestamp, should its year not have four digits
    pods: Option<map<string, PodCache.PodInfo>>,
    history: Option<seq<Sample>>,
    stats: Option<MemoryStats>,
    groupKill: Option<bool>,
    listing: Option<seq<Process>>)

  // ---- one report ----

  function Latest(env: Surroundings): Option<MemoryStats> {
    if env.history == None || env.history.value == [] then None
    else Some(env.history.value[|env.history.value| - 1].stats)
  }

  function PeakOf(stats: Option<MemoryStats>): u64 {
    if stats.Some? then stats.value.peak else 0
  }

  function LimitOf(stats: Option<MemoryStats>): u64 {
    if stats.Some? then FlatLimit(stats.value.limit) else 0
  }

  function Largest(a: u64, b: u64): u64 {
    if a >= b then a else b
  }

  /** The peak reported is the largest of the three known bounds. */
  function Peak(event: KillEvent, env: Surroundings): u64 {
    Largest(Largest(PeakOf(Latest(env)), PeakOf(env.stats)), event.victim.rssBytes)
  }

  /** The limit in force when last sampled, else the live one. */
  function Limit(env: Surroundings): u64 {
    if LimitOf(Latest(env)) != 0 then LimitOf(Latest(env)) else LimitOf(env.stats)
  }

  ghost predicate TrajectoryMatches(points: seq<TrajectoryPoint>, trend: Trend.Trend, history: Option<seq<Sample>>) {
    if history == None || history.value == [] then points == [] && trend == Trend.Trend(0.0, 0.0, 0, 0, 0, false)
    else
      && |points| == |history.value|
      && (forall i | 0 <= i < |points| :: points[i] == PointOf(history.value[i]))
      && Trend.Describes(trend, history.value)
  }

  ghost predicate ListingMatches(
    processes: seq<Process>, basis: Option<VictimMatch>, listing: Option<seq<Process>>, victim: Victim)
  {
    if listing == None then processes == [] && basis == None
    else basis.Some? && IsListing(listing.value, victim, processes, basis.value)
  }

  /** The report an event gives, as the sequence-th of the daemon's lifetime. */
  ghost predicate IsReport(r: Report, event: KillEvent, env: Surroundings, sequence: nat) {
    && r.id == ReportId(StampOf(event.time, env.oddStamp), sequence)
    && r.time == event.time && r.victim == event.victim && r.source == event.source && r.killCount == event.killCount
    && r.identity == (match Resolve(event.cgroupPath, env.pods)
                      case Some(identity) => identity
                      case None => Unresolved(event.cgroupPath))
    && r.peakBytes == Peak(event, env)
    && r.limitBytes == Limit(env)
    && r.groupKill == OrElse(event.groupKill, env.groupKill)
    && TrajectoryMatches(r.trajectory, r.trend, env.history)
    && ListingMatches(r.processes, r.victimMatch, env.listing, event.victim)
  }

  /** The peak is the largest of what is known: the kernel's high-water mark as last
      sampled, the same mark read live, and what the victim held. */
  predicate PeakOnFields(r: Report, event: KillEvent, env: Surroundings) {
    var sampled := env.history.Some? && env.history.value != [];
    && (sampled ==> env.history.value[|env.history.value| - 1].stats.peak <= r.peakBytes)
    && (env.stats.Some? ==> env.stats.value.peak <= r.peakBytes)
    && event.victim.rssBytes <= r.peakBytes
    && (|| (sampled && r.peakBytes == env.history.value[|env.history.value| - 1].stats.peak)
        || (env.stats.Some? && r.peakBytes == env.stats.value.peak)
        || r.peakBytes == event.victim.rssBytes)
  }

  /** The limit is the one last sampled, unless it was zero or the absence of one; then
      the one read live, unless it is the absence of one; then zero. */
  predicate LimitOnFields(r: Report, env: Surroundings) {
    var none := 0xFFFF_FFFF_FFFF_FFFF;
    var last := if env.history.Some? && env.history.value != []
                then Some(env.history.value[|env.history.value| - 1].stats.limit) else None;
    if last.Some? && last.value != none && last.value != 0 then r.limitBytes == last.value
    else if env.stats.Some? && env.stats.value.limit != none then r.limitBytes == env.stats.value.limit
    else r.limitBytes == 0
  }

  /** What a report says of memory and of the group, on the fields it was read from. */
  lemma ReportOnFields(r: Report, event: KillEvent, env: Surroundings, sequence: nat)
    requires IsReport(r, event, env, sequence)
    ensures PeakOnFields(r, event, env)
    ensures LimitOnFields(r, env)
    ensures event.groupKill.Some? ==> r.groupKill == event.groupKill
    ensures event.groupKill == None ==> r.groupKill == env.groupKill
  {
    hide Resolve, ReportId, StampOf, TrajectoryMatches, ListingMatches;
  }

  /** Events outside the kubelet's pod hierarchy are dropped unless asked for. */
  predicate Skips(event: KillEvent, includeNonKubernetes: bool) {
    Parse(event.cgroupPath) == None && !includeNonKubernetes
  }

  /** The names of a pod and, for a container scope, of the container with its ID; a
      pod scope borrows no container's name. */
  predicate NamedAfter(identity: Identity, scope: Scope, pod: PodCache.PodInfo) {
    && identity.namespace == pod.namespace && identity.podName == pod.name
    && (scope.kind == ContainerScope && scope.containerID in pod.containers ==>
          && identity.containerName == pod.containers[scope.containerID].name
          && identity.image == pod.containers[scope.containerID].image)
    && (scope.kind == PodScope || scope.containerID !in pod.containers ==>
          identity.containerName == "" && identity.image == "")
  }

  /** A path resolves exactly when it parses, to the very scope parsed; it is named
      after the pod of the parsed UID, when that is known, and otherwise not at all. */
  lemma ResolveFollowsParse(path: string, pods: Option<map<string, PodCache.PodInfo>>)
    ensures Resolve(path, pods) == None <==> Parse(path) == None
    ensures Resolve(path, pods).Some? ==>
      var identity := Resolve(path, pods).value;
      && identity.scope == Parse(path) && identity.cgroupPath == path
      && (identity.resolved <==> pods.Some? && identity.scope.value.podUID in pods.value)
      && (!identity.resolved ==> identity == Unresolved(path).(scope := identity.scope))
      && (identity.resolved ==>
            NamedAfter(identity, identity.scope.value, pods.value[identity.scope.value.podUID]))
  {
    hide Parse;
  }

  // ---- a run ----

  /** One handled event and what came of it. */
  datatype Handled = Handled(event: KillEvent, env: Surroundings, report: Option<Report>)

  function Accepted(run: seq<Handled>): seq<Report> {
    if run == [] then []
    else
      var last := run[|run| - 1];
      Accepted(run[..|run| - 1]) + if last.report.Some? then [last.report.value] else []
  }

  function Stamps(run: seq<Handled>): seq<string> {
    if run == [] then []
    else
      var last := run[|run| - 1];
      Stamps(run[..|run| - 1]) + if last.report.Some? then [StampOf(last.event.time, last.env.oddStamp)] else []
  }

  function SkippedCount(run: seq<Handled>): nat {
    if run == [] then 0
    else SkippedCount(run[..|run| - 1]) + if run[|run| - 1].report == None then 1 else 0
  }

  /** Skipped events inside the kubelet's tree. */
  function UnattributedCount(run: seq<Handled>): nat {
    if run == [] then 0
    else
      var last := run[|run| - 1];
      UnattributedCount(run[..|run| - 1])
      + if last.report == None && InTree(Segments(last.event.cgroupPath)) then 1 else 0
  }

  /** One event's outcome, after `before` earlier reports. */
  ghost predicate IsOutcome(h: Handled, before: nat, includeNonKubernetes: bool) {
    if Skips(h.event, includeNonKubernetes) then h.report == None
    else h.report.Some? && IsReport(h.report.value, h.event, h.env, (before + 1) % TWO_TO_64)
  }

  ghost predicate IsRun(run: seq<Handled>, includeNonKubernetes: bool) {
    if run == [] then true
    else
      var front := run[..|run| - 1];
      IsRun(front, includeNonKubernetes) && IsOutcome(run[|run| - 1], |Accepted(front)|, includeNonKubernetes)
  }

  lemma {:induction false} AcceptedIds(run: seq<Handled>, includeNonKubernetes: bool)
    requires IsRun(run, includeNonKubernetes)
    ensures |Stamps(run)| == |Accepted(run)|
    ensures forall i | 0 <= i < |Accepted(run)| ::
              Accepted(run)[i].id == ReportId(Stamps(run)[i], (i + 1) % TWO_TO_64)
  {
    hide ReportId, IsOutcome, Accepted, Stamps;
    if run == [] {
      NothingAccepted();
    } else {
      var front, last := run[..|run| - 1], run[|run| - 1];
      assert run == front + [last];
      AcceptedIds(front, includeNonKubernetes);
      AcceptedSnoc(front, last);
      if last.report.Some? {
        OutcomeId(last, |Accepted(front)|, includeNonKubernetes);
      }
    }
  }

  lemma NothingAccepted()
    ensures Accepted([]) == [] && Stamps([]) == []
  {
  }

  lemma AcceptedSnoc(front: seq<Handled>, h: Handled)
    ensures Accepted(front + [h]) == if h.report.Some? then Accepted(front) + [h.report.value] else Accepted(front)
    ensures Stamps(front + [h]) ==
            if h.report.Some? then Stamps(front) + [StampOf(h.event.time, h.env.oddStamp)] else Stamps(front)
  {
    hide StampOf;
    assert (front + [h])[..|front|] == front;
    assert Accepted(front) + [] == Accepted(front) && Stamps(front) + [] == Stamps(front);
  }

  lemma OutcomeId(h: Handled, before: nat, includeNonKubernetes: bool)
    requires IsOutcome(h, before, includeNonKubernetes) && h.report.Some?
    ensures h.report.value.id == ReportId(StampOf(h.event.time, h.env.oddStamp), (before + 1) % TWO_TO_64)
  {
    hide ReportId, Skips, TrajectoryMatches, ListingMatches;
  }

  lemma SameResidue(i: nat, j: nat, m: int)
    requires i < j && m > 0
    ensures (i + 1) % m == (j + 1) % m <==> (j - i) % m == 0
  {
    var qi, qj, d := (i + 1) / m, (j + 1) / m, (j - i) / m;
    var ri, rj, r := (i + 1) % m, (j + 1) % m, (j - i) % m;
    assert i + 1 == m * qi + ri && j + 1 == m * qj + rj && j - i == m * d + r;
    var k := qj - qi - d;
    assert m * qj - m * qi - m * d == m * k;
    assert m * k == r + ri - rj;
    if r == 0 || ri == rj {
      MultipleInRange(m, k);
    }
  }

  /** Two reports of one run share an ID exactly when they carry the same timestamp
      and the 64-bit sequence has wrapped around a whole number of times between. */
  lemma IdsCollideExactlyWhen(run: seq<Handled>, includeNonKubernetes: bool, i: nat, j: nat)
    requires IsRun(run, includeNonKubernetes)
    requires i < j < |Accepted(run)| == |Stamps(run)|
    ensures Accepted(run)[i].id == Accepted(run)[j].id
      <==> Stamps(run)[i] == Stamps(run)[j] && (j - i) % TWO_TO_64 == 0
  {
    hide IsRun, Accepted, Stamps, ReportId;
    AcceptedIds(run, includeNonKubernetes);
    ReportIdDeterminesParts(Stamps(run)[i], (i + 1) % TWO_TO_64, Stamps(run)[j], (j + 1) % TWO_TO_64);
    SameResidue(i, j, TWO_TO_64);
  }

  /** Of two reports of one run, stamped in the same width, the one made first also
      sorts first exactly when its timestamp does, or, within one second, when its
      zero-padded number does not exceed the other's. */
  lemma ReportsSortExactlyWhen(run: seq<Handled>, includeNonKubernetes: bool, i: nat, j: nat)
    requires IsRun(run, includeNonKubernetes)
    requires i < j < |Accepted(run)| == |Stamps(run)|
    requires |Stamps(run)[i]| == |Stamps(run)[j]|
    ensures Less(Accepted(run)[i].id, Accepted(run)[j].id) <==>
              if Stamps(run)[i] != Stamps(run)[j] then Less(Stamps(run)[i], Stamps(run)[j])
              else PaddedFirst((i + 1) % TWO_TO_64, (j + 1) % TWO_TO_64)
    ensures |Accepted(run)| < TWO_TO_64 ==>
              && |Decimal(i + 1)| <= |Decimal(j + 1)|
              && (PaddedFirst((i + 1) % TWO_TO_64, (j + 1) % TWO_TO_64) <==>
                    (i + 1) * Pow10(|Decimal(j + 1)| - |Decimal(i + 1)|) <= j + 1)
  {
    hide IsRun, Accepted, Stamps, ReportId, Less, Decimal, Pow10, PaddedFirst;
    AcceptedIds(run, includeNonKubernetes);
    StampedIdsSort(Stamps(run)[i], (i + 1) % TWO_TO_64, Stamps(run)[j], (j + 1) % TWO_TO_64);
    if |Accepted(run)| < TWO_TO_64 {
      Unwrapped(i, j);
    }
    LongerIsNotSmaller(i + 1, j + 1);
  }

  /** Every event falls in the years of four digits. */
  predicate TimesInEra(run: seq<Handled>) {
    forall i | 0 <= i < |run| :: InEra(run[i].event.time)
  }

  lemma {:induction false} StampedByTime(run: seq<Handled>, includeNonKubernetes: bool)
    requires IsRun(run, includeNonKubernetes) && TimesInEra(run)
    ensures |Stamps(run)| == |Accepted(run)|
    ensures forall i | 0 <= i < |Accepted(run)| ::
              InEra(Accepted(run)[i].time) && Stamps(run)[i] == StampAt(Accepted(run)[i].time)
  {
    hide IsOutcome, Accepted, Stamps, InEra, StampAt;
    if run == [] {
      NothingAccepted();
    } else {
      var front, last := run[..|run| - 1], run[|run| - 1];
      assert run == front + [last];
      StampedByTime(front, includeNonKubernetes);
      AcceptedSnoc(front, last);
      if last.report.Some? {
        OutcomeTime(last, |Accepted(front)|, includeNonKubernetes);
      }
    }
  }

  lemma OutcomeTime(h: Handled, before: nat, includeNonKubernetes: bool)
    requires IsOutcome(h, before, includeNonKubernetes) && h.report.Some?
    ensures h.report.value.time == h.event.time
  {
    hide ReportId, Skips, TrajectoryMatches, ListingMatches;
  }

  /** Reports sort by the instant of the kill as far as its second tells, and within
      one second as their unpadded numbers do. */
  lemma ReportsSortChronologically(run: seq<Handled>, includeNonKubernetes: bool, i: nat, j: nat)
    requires IsRun(run, includeNonKubernetes) && TimesInEra(run)
    requires i < j < |Accepted(run)|
    ensures var reports := Accepted(run);
      var t, u := reports[i].time, reports[j].time;
      Less(reports[i].id, reports[j].id) <==>
        if SecondOf(t) != SecondOf(u) then t < u else PaddedFirst((i + 1) % TWO_TO_64, (j + 1) % TWO_TO_64)
  {
    hide IsRun, TimesInEra, Accepted, Stamps, Less, InEra, StampAt, SecondOf, PaddedFirst;
    StampedByTime(run, includeNonKubernetes);
    var t, u := Accepted(run)[i].time, Accepted(run)[j].time;
    StampsAtSort(t, u);
    ReportsSortExactlyWhen(run, includeNonKubernetes, i, j);
    if SecondOf(t) != SecondOf(u) {
      SecondsInOrder(t, u);
    }
  }

  lemma StampedIdsSort(stamp: string, n: nat, stamp': string, n': nat)
    requires |stamp| == |stamp'|
    ensures Less(ReportId(stamp, n), ReportId(stamp', n')) <==>
              if stamp != stamp' then Less(stamp, stamp') else PaddedFirst(n, n')
  {
    hide ReportId, Less, PaddedFirst;
    if stamp != stamp' {
      StampsDecideFirst(stamp, n, stamp', n');
    } else {
      IdsOfOneSecond(stamp, n, n');
    }
  }

  /** Short of 2^64 the sequence has not wrapped. */
  lemma Unwrapped(i: nat, j: nat)
    requires i < j && j + 1 < TWO_TO_64
    ensures |Decimal(i + 1)| <= |Decimal(j + 1)|
    ensures PaddedFirst((i + 1) % TWO_TO_64, (j + 1) % TWO_TO_64) <==>
              (i + 1) * Pow10(|Decimal(j + 1)| - |Decimal(i + 1)|) <= j + 1
  {
    hide Decimal, Pow10;
    LongerIsNotSmaller(i + 1, j + 1);
  }

  /** Short of 2^64 reports, IDs are pairwise distinct whatever the timestamps; so
      the store never replaces, and holds exactly the last of the reports made. */
  lemma StoreHoldsLastReports(run: seq<Handled>, includeNonKubernetes: bool, capacity: nat)
    requires IsRun(run, includeNonKubernetes) && capacity > 0
    requires |Accepted(run)| <= TWO_TO_64
    ensures DistinctIds(Accepted(run))
    ensures PutAll(Accepted(run), capacity) == LastN(Accepted(run), capacity)
  {
    hide IsRun, Accepted, Stamps, LastN;
    AcceptedIds(run, includeNonKubernetes);
    forall i, j | 0 <= i < j < |Accepted(run)|
      ensures Accepted(run)[i].id != Accepted(run)[j].id
    {
      IdsCollideExactlyWhen(run, includeNonKubernetes, i, j);
      assert (j - i) % TWO_TO_64 == j - i;
    }
    FreshPutsKeepLast(Accepted(run), capacity);
  }

  /** Nothing is lost uncounted: every event is a report or a skip; the unattributed
      are exactly the skips inside the kubelet's tree, so there are none when kills
      outside it are included. */
  lemma {:induction false} Conservation(run: seq<Handled>, includeNonKubernetes: bool)
    requires IsRun(run, includeNonKubernetes)
    ensures |Accepted(run)| + SkippedCount(run) == |run|
    ensures UnattributedCount(run) <= SkippedCount(run)
    ensures includeNonKubernetes ==> SkippedCount(run) == 0
    ensures UnattributedCount(run) == |Blind(run, includeNonKubernetes)|
  {
    hide IsReport, Parse, InTree, Segments;
    if run != [] {
      Conservation(run[..|run| - 1], includeNonKubernetes);
    }
  }

  /** The events inside the tree that the parser rejects and the options drop. */
  function Blind(run: seq<Handled>, includeNonKubernetes: bool): seq<KillEvent> {
    if run == [] then []
    else
      var event := run[|run| - 1].event;
      var path := event.cgroupPath;
      Blind(run[..|run| - 1], includeNonKubernetes)
      + if !includeNonKubernetes && InTree(Segments(path)) && Parse(path) == None then [event] else []
  }

  /** How the accounts of a run change with one more event. */
  lemma RunSnoc(front: seq<Handled>, h: Handled, includeNonKubernetes: bool, capacity: nat)
    requires IsRun(front, includeNonKubernetes)
    requires IsOutcome(h, |Accepted(front)|, includeNonKubernetes)
    ensures var run := front + [h];
      && IsRun(run, includeNonKubernetes)
      && (h.report == None ==>
            && Accepted(run) == Accepted(front)
            && SkippedCount(run) == SkippedCount(front) + 1
            && UnattributedCount(run) ==
               UnattributedCount(front) + if InTree(Segments(h.event.cgroupPath)) then 1 else 0)
      && (h.report.Some? ==>
            && |Accepted(run)| == |Accepted(front)| + 1
            && PutAll(Accepted(run), capacity) == PutInto(PutAll(Accepted(front), capacity), h.report.value, capacity)
            && SkippedCount(run) == SkippedCount(front)
            && UnattributedCount(run) == UnattributedCount(front))
  {
    hide IsOutcome, PutInto, InTree, Segments;
    var run := front + [h];
    assert run[..|front|] == front;
    if h.report.Some? {
      assert Accepted(run) == Accepted(front) + [h.report.value];
      assert (Accepted(front) + [h.report.value])[..|Accepted(front)|] == Accepted(front);
    }
  }
}
