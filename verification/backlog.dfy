/** A run in which a sampled container's report has no trajectory. */
module Backlogs {
  import opened Common
  import opened CgroupStats
  import opened CgroupPath
  import opened Detection
  import opened DaemonSpec
  import opened Pipeline
  import opened ReportIds
  import opened ReportOrder
  import opened Reports
  import opened SamplerSpec
  import PollerSpec
  import Trend

  /** The sampler read the path, then missed it for a whole retention window while its
      kill, raised by the poller in between, waited to be handled. */
  function Backlog(path: string, stats: MemoryStats, killed: MemoryStats, retention: int): seq<Action> {
    [ Collects(Pass(0, [Read(path, Some((stats, 0.0)))])),
      Polls(PollerSpec.Prime([PollerSpec.Entry(path, Some(stats), None, None, None)])),
      Polls(PollerSpec.Poll(1, [PollerSpec.Entry(path, Some(killed), None, None, None)])),
      Collects(Pass(1, [])),
      Collects(Pass(1 + retention, [])) ]
  }

  lemma PassesSnoc(front: seq<Action>, last: Action)
    ensures Passes(front + [last]) == if last.Collects? then Passes(front) + [last.pass] else Passes(front)
  {
    assert (front + [last])[..|front|] == front;
    NothingAdded(Passes(front));
  }

  lemma SlowProjections(path: string, stats: MemoryStats, killed: MemoryStats, retention: int)
    ensures var before := Backlog(path, stats, killed, retention);
      && Passes(before) == [before[0].pass, before[3].pass, before[4].pass]
      && Inputs(before) == [before[1].input, before[2].input]
      && HandledBy(before) == []
  {
    var s := Backlog(path, stats, killed, retention);
    hide Passes, Inputs, HandledBy;
    assert s == [] + [s[0]] + [s[1]] + [s[2]] + [s[3]] + [s[4]];
    NoActions();
    PassesSnoc([], s[0]);
    ActionSnoc([], s[0]);
    PassesSnoc([] + [s[0]], s[1]);
    ActionSnoc([] + [s[0]], s[1]);
    PassesSnoc([] + [s[0]] + [s[1]], s[2]);
    ActionSnoc([] + [s[0]] + [s[1]], s[2]);
    PassesSnoc([] + [s[0]] + [s[1]] + [s[2]], s[3]);
    ActionSnoc([] + [s[0]] + [s[1]] + [s[2]], s[3]);
    PassesSnoc([] + [s[0]] + [s[1]] + [s[2]] + [s[3]], s[4]);
    ActionSnoc([] + [s[0]] + [s[1]] + [s[2]] + [s[3]], s[4]);
  }

  lemma NoActions()
    ensures Passes([]) == [] && Inputs([]) == [] && HandledBy([]) == []
  {
  }

  lemma {:induction false} NothingHandledYet(actions: seq<Action>, setup: Setup)
    requires forall i | 0 <= i < |actions| :: !actions[i].Handles?
    ensures IsPipeline(actions, setup)
  {
    hide Connected;
    if actions != [] {
      NothingHandledYet(actions[..|actions| - 1], setup);
    }
  }

  lemma SlowlyForgotten(path: string, stats: MemoryStats, retention: int)
    requires retention > 0
    ensures var passes := [Pass(0, [Read(path, Some((stats, 0.0)))]), Pass(1, []), Pass(1 + retention, [])];
      Saw(passes[0], path) && !Retained(passes, path, retention)
  {
    var p0, p1, p2 := Pass(0, [Read(path, Some((stats, 0.0)))]), Pass(1, []), Pass(1 + retention, []);
    OneRead(p0, path);
    NoReads(p1, path);
    NoReads(p2, path);
    assert MissedFrom([], path) == 0;
    hide Saw, Retained, MissedFrom;
    RetainedSnoc([], p0, path, retention);
    assert [] + [p0] == [p0];
    RetainedSnoc([p0], p1, path, retention);
    assert [p0] + [p1] == [p0, p1];
    RetainedSnoc([p0, p1], p2, path, retention);
    assert [p0, p1] + [p2] == [p0, p1, p2];
  }

  lemma OneRead(pass: Pass, path: string)
    requires |pass.readings| == 1 && pass.readings[0].reading.Some? && pass.readings[0].path == path
    ensures Saw(pass, path)
  {
  }

  lemma NoReads(pass: Pass, path: string)
    requires pass.readings == []
    ensures !Saw(pass, path)
  {
  }

  lemma SlowEvent(path: string, stats: MemoryStats, killed: MemoryStats, hasProc: bool) returns (event: KillEvent)
    requires stats.OOMKills() < killed.OOMKills()
    ensures var inputs := [PollerSpec.Prime([PollerSpec.Entry(path, Some(stats), None, None, None)]),
                           PollerSpec.Poll(1, [PollerSpec.Entry(path, Some(killed), None, None, None)])];
      PollerSpec.AllEvents(inputs, hasProc) == [event] && event.cgroupPath == path
  {
    var e0 := PollerSpec.Entry(path, Some(stats), None, None, None);
    var e1 := PollerSpec.Entry(path, Some(killed), None, None, None);
    var first := [PollerSpec.Prime([e0])];
    var inputs := first + [PollerSpec.Poll(1, [e1])];
    var st := PollerSpec.Run(first, hasProc);
    assert PollerSpec.Run([], hasProc) == PollerSpec.State(map[], map[]);
    assert first[..0] == [] && [e0][..0] == [] && [e1][..0] == [] && inputs[..1] == first;
    assert PollerSpec.Baseline(map[], []) == map[];
    assert PollerSpec.Baseline(map[], [e0]) == map[path := stats.OOMKills()];
    assert st == PollerSpec.Step(PollerSpec.State(map[], map[]), PollerSpec.Prime([e0]), hasProc);
    assert st.counters == map[path := stats.OOMKills()];
    event := PollerSpec.EventOf(e1, st.snapshots, 1, hasProc);
    assert PollerSpec.Detect(st.counters, st.snapshots, [e1], 1, hasProc) == [] + [event];
    assert PollerSpec.AllEvents(first, hasProc) == [] + [];
    assert PollerSpec.AllEvents(inputs, hasProc) == [] + [event];
    assert inputs == [PollerSpec.Prime([e0]), PollerSpec.Poll(1, [e1])];
  }

  /** A report with nothing but its event to go by. */
  lemma BareReport(event: KillEvent, oddStamp: string, setup: Setup) returns (h: Handled)
    requires !Skips(event, setup.includeNonKubernetes)
    ensures h.event == event && h.env == Surroundings(oddStamp, None, None, None, None, None)
    ensures h.report.Some? && h.report.value.trajectory == []
    ensures IsOutcome(h, 0, setup.includeNonKubernetes)
  {
    hide Parse, Skips, ReportId, StampOf;
    var env := Surroundings(oddStamp, None, None, None, None, None);
    var identity := OrElse(Resolve(event.cgroupPath, None), Some(Unresolved(event.cgroupPath))).value;
    var report := Report(
      ReportId(StampOf(event.time, oddStamp), 1), event.time, identity, event.victim, event.source, event.killCount,
      Limit(env), Peak(event, env), [], [], None, event.groupKill, Trend.Trend(0.0, 0.0, 0, 0, 0, false));
    h := Handled(event, env, Some(report));
  }

  /** A trajectory can be empty though the container was sampled: its history was
      forgotten before its kill was handled. */
  lemma SampledYetEmpty(path: string, stats: MemoryStats, killed: MemoryStats, oddStamp: string, setup: Setup)
    returns (h: Handled)
    requires ValidConfig(setup.cfg) && stats.OOMKills() < killed.OOMKills()
    requires Parse(path).Some? || setup.includeNonKubernetes
    ensures var before := Backlog(path, stats, killed, setup.cfg.retention);
      && Saw(before[0].pass, path)
      && IsPipeline(before + [Handles(h, 0)], setup)
      && h.event.cgroupPath == path && h.report.Some? && h.report.value.trajectory == []
  {
    hide IsPipeline, Connected, Passes, Inputs, HandledBy, Log, Saw, Retained, IsOutcome, PollerSpec.AllEvents, Parse;
    var before := Backlog(path, stats, killed, setup.cfg.retention);
    NothingHandledYet(before, setup);
    var event := SlowEvent(path, stats, killed, setup.hasProc);
    h := BareReport(event, oddStamp, setup);
    SlowlyForgotten(path, stats, setup.cfg.retention);
    SlowProjections(path, stats, killed, setup.cfg.retention);
    FirstHandled(before, h, setup);
    PipelineGrows(before, h, setup);
  }

  lemma PipelineGrows(before: seq<Action>, h: Handled, setup: Setup)
    requires IsPipeline(before, setup) && Connected(before, h, 0, setup)
    ensures IsPipeline(before + [Handles(h, 0)], setup)
  {
    hide Connected;
    assert (before + [Handles(h, 0)])[..|before|] == before;
  }

  /** The first event can be handled with no history once its path is forgotten. */
  lemma FirstHandled(before: seq<Action>, h: Handled, setup: Setup)
    requires ValidConfig(setup.cfg) && HandledBy(before) == []
    requires PollerSpec.AllEvents(Inputs(before), setup.hasProc) == [h.event]
    requires !Retained(Passes(before), h.event.cgroupPath, setup.cfg.retention)
    requires h.env.history == None && h.env.pods == None
    requires IsOutcome(h, 0, setup.includeNonKubernetes)
    ensures Connected(before, h, 0, setup)
  {
    NoReports();
    RunRetains(Passes(before), setup.cfg, h.event.cgroupPath);
    hide IsOutcome, Run, Retained, Recorded, Passes, Inputs, HandledBy, Log, PollerSpec.AllEvents, Accepted;
  }

  lemma NoReports()
    ensures Accepted([]) == []
  {
  }
}
