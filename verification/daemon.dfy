/** The daemon's counters, sequence and store, updated by each event it handles. */
module Daemon {
  import opened Common
  import opened CgroupStats
  import opened CgroupPath
  import opened Detection
  import opened ProcessListing
  import opened Reports
  import opened ReportIds
  import opened ReportOrder
  import opened Store
  import opened DaemonSpec
  import Trend

  class Daemon {
    const includeNonKubernetes: bool
    const store: Memory
    var sequence: u64
    var processed: u64
    var skipped: u64
    var unattributed: u64

    /** Every event handled so far and what came of it. */
    ghost var run: seq<Handled>

    ghost predicate Valid()
      reads this, store
    {
      && store.Valid()
      && IsRun(run, includeNonKubernetes)
      && store.ordered == PutAll(Accepted(run), store.capacity)
      && sequence == |Accepted(run)| % TWO_TO_64
      && processed == |Accepted(run)| % TWO_TO_64
      && skipped == SkippedCount(run) % TWO_TO_64
      && unattributed == UnattributedCount(run) % TWO_TO_64
    }

    constructor (capacity: int, includeNonKubernetes: bool)
      ensures Valid() && run == [] && fresh(store)
      ensures this.includeNonKubernetes == includeNonKubernetes
      ensures store.capacity == if capacity <= 0 then 256 else capacity
    {
      this.includeNonKubernetes := includeNonKubernetes;
      store := new Memory(capacity);
      sequence, processed, skipped, unattributed := 0, 0, 0, 0;
      run := [];
    }

    /** The next ID of this daemon's lifetime. */
    method NextId(at: int, oddStamp: string) returns (id: string)
      modifies this`sequence
      ensures sequence == Increment(old(sequence))
      ensures id == ReportId(StampOf(at, oddStamp), sequence)
    {
      sequence := Increment(sequence);
      id := StampOf(at, oddStamp) + "-" + Decimal(sequence);
    }

    /** Corrects the headline numbers using the cgroup itself and, as a floor for
        the peak, the victim's own resident memory. */
    method ApplyLiveStats(report: Report, event: KillEvent, stats: Option<MemoryStats>) returns (r: Report)
      ensures r == report.(peakBytes := r.peakBytes, limitBytes := r.limitBytes)
      ensures r.peakBytes == Largest(Largest(report.peakBytes, PeakOf(stats)), event.victim.rssBytes)
      ensures r.limitBytes == if report.limitBytes != 0 then report.limitBytes else LimitOf(stats)
      ensures report.peakBytes <= r.peakBytes && event.victim.rssBytes <= r.peakBytes
      ensures stats.Some? ==> stats.value.peak <= r.peakBytes
      ensures r.peakBytes in {report.peakBytes, event.victim.rssBytes}
              || (stats.Some? && r.peakBytes == stats.value.peak)
    {
      r := report;
      if stats.Some? {
        if stats.value.peak > r.peakBytes {
          r := r.(peakBytes := stats.value.peak);
        }
        if r.limitBytes == 0 && stats.value.limit != UNLIMITED {
          r := r.(limitBytes := stats.value.limit);
        }
      }
      if r.peakBytes < event.victim.rssBytes {
        r := r.(peakBytes := event.victim.rssBytes);
      }
    }

    /** Adds the sampled trajectory, and the peak and limit last sampled. */
    method ApplyHistory(report: Report, history: Option<seq<Sample>>) returns (r: Report)
      requires report.trajectory == [] && report.trend == Trend.Trend(0.0, 0.0, 0, 0, 0, false)
      requires report.peakBytes == 0 && report.limitBytes == 0
      ensures r == report.(trajectory := r.trajectory, trend := r.trend,
                           peakBytes := r.peakBytes, limitBytes := r.limitBytes)
      ensures TrajectoryMatches(r.trajectory, r.trend, history)
      ensures var latest := if history == None || history.value == [] then None
                            else Some(history.value[|history.value| - 1].stats);
        r.peakBytes == PeakOf(latest) && r.limitBytes == LimitOf(latest)
    {
      hide Trend.Describes, CgroupStats.MemoryStats.UsageRatio;
      r := report;
      if history.Some? && |history.value| > 0 {
        var samples := history.value;
        var points := TrajectoryFrom(samples);
        var trend := Trend.Analyse(samples);
        var latest := samples[|samples| - 1].stats;
        r := r.(trajectory := points, trend := trend, peakBytes := latest.peak);
        if latest.limit != UNLIMITED {
          r := r.(limitBytes := latest.limit);
        }
      }
    }

    /** Puts an event and what can be read around it together; nothing comes of an event
        that Skips. */
    method BuildReport(event: KillEvent, env: Surroundings) returns (r: Option<Report>)
      modifies this`sequence
      ensures r == None <==> Skips(event, includeNonKubernetes)
      ensures sequence == if r == None then old(sequence) else Increment(old(sequence))
      ensures r.Some? ==> IsReport(r.value, event, env, sequence)
      ensures r.Some? ==> PeakOnFields(r.value, event, env) && LimitOnFields(r.value, env)
    {
      hide Parse, TrajectoryMatches, IsListing, ReportId, Reports.Resolve, PeakOnFields, LimitOnFields;
      ResolveFollowsParse(event.cgroupPath, env.pods);
      var resolved := Resolve(event.cgroupPath, env.pods);
      if resolved == None && !includeNonKubernetes {
        return None;
      }
      var identity := if resolved.Some? then resolved.value else Unresolved(event.cgroupPath);
      var id := NextId(event.time, env.oddStamp);
      var report := Report(
        id, event.time, identity, event.victim, event.source, event.killCount, 0, 0, [], [], None, None,
        Trend.Trend(0.0, 0.0, 0, 0, 0, false));
      report := ApplyHistory(report, env.history);
      report := ApplyLiveStats(report, event, env.stats);
      report := report.(groupKill := if event.groupKill.Some? then event.groupKill else env.groupKill);
      if env.listing.Some? {
        var listed, basis := ProcessesFrom(env.listing.value, event.victim);
        report := report.(processes := listed, victimMatch := Some(basis));
      }
      ReportOnFields(report, event, env, sequence);
      return Some(report);
    }

    /** Turns one kill event into a report, or counts it as skipped. */
    method Handle(event: KillEvent, env: Surroundings)
      requires Valid()
      modifies this, store
      ensures Valid()
      ensures |run| == |old(run)| + 1 && run[..|old(run)|] == old(run)
      ensures run[|old(run)|].event == event && run[|old(run)|].env == env
    {
      hide IsReport, Skips, PutInto, PutAll, InTree, Segments, Increment;
      hide IsRun, IsOutcome, Accepted, SkippedCount, UnattributedCount;
      var report := BuildReport(event, env);
      ghost var front := run;
      run := run + [Handled(event, env, report)];
      IncrementCounts(|Accepted(front)|);
      IncrementCounts(SkippedCount(front));
      IncrementCounts(UnattributedCount(front));
      SkipsUnlessReported(event, env, report, |Accepted(front)|, includeNonKubernetes);
      RunSnoc(front, Handled(event, env, report), includeNonKubernetes, store.capacity);
      if report == None {
        skipped := Increment(skipped);
        var inside := InKubepodsTree(event.cgroupPath);
        if inside {
          unattributed := Increment(unattributed);
        }
        return;
      }
      store.Put(report.value);
      processed := Increment(processed);
    }

    /** The whole pipeline, over any run short of 2^64 reports. */
    lemma PipelineHolds()
      requires Valid() && |run| < TWO_TO_64
      ensures DistinctIds(Accepted(run))
      ensures store.ordered == LastN(Accepted(run), store.capacity)
      ensures processed + skipped == |run|
      ensures unattributed == |Blind(run, includeNonKubernetes)| <= skipped
    {
      hide IsRun, LastN, Blind, PutAll, Accepted, SkippedCount, UnattributedCount;
      Conservation(run, includeNonKubernetes);
      StoreHoldsLastReports(run, includeNonKubernetes, store.capacity);
    }
  }

  lemma IncrementCounts(n: nat)
    ensures Increment(n % TWO_TO_64) == (n + 1) % TWO_TO_64
  {
  }

  lemma SkipsUnlessReported(
    event: KillEvent, env: Surroundings, report: Option<Report>, before: nat, includeNonKubernetes: bool)
    requires report == None <==> Skips(event, includeNonKubernetes)
    requires report.Some? ==> IsReport(report.value, event, env, (before + 1) % TWO_TO_64)
    ensures IsOutcome(Handled(event, env, report), before, includeNonKubernetes)
  {
    hide IsReport, Skips;
  }
}
