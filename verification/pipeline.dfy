/** The machines composed: what the sampler, the poller and the pod cache hold is
    what the daemon reports, over any interleaving of their steps. */
module Pipeline {
  import opened Common
  import opened CgroupStats
  import opened CgroupPath
  import opened Detection
  import opened Reports
  import opened DaemonSpec
  import PollerLaws
  import PollerSpec
  import SamplerSpec
  import PodCache
  import Trend

  datatype Setup = Setup(cfg: SamplerSpec.Config, hasProc: bool, grace: int, includeNonKubernetes: bool)

  /** One step of one machine. The daemon handles an event at a clock reading of the
      pod cache. */
  datatype Action =
    | Collects(pass: SamplerSpec.Pass)
    | Polls(input: PollerSpec.Input)
    | Informs(event: PodCache.Event)
    | Handles(handled: Handled, at: int)

  // ---- each machine's own run ----

  function Passes(actions: seq<Action>): seq<SamplerSpec.Pass> {
    if actions == [] then []
    else
      var last := actions[|actions| - 1];
      Passes(actions[..|actions| - 1]) + if last.Collects? then [last.pass] else []
  }

  function Inputs(actions: seq<Action>): seq<PollerSpec.Input> {
    if actions == [] then []
    else
      var last := actions[|actions| - 1];
      Inputs(actions[..|actions| - 1]) + if last.Polls? then [last.input] else []
  }

  function Log(actions: seq<Action>): seq<PodCache.Event> {
    if actions == [] then []
    else
      var last := actions[|actions| - 1];
      Log(actions[..|actions| - 1]) + if last.Informs? then [last.event] else []
  }

  function HandledBy(actions: seq<Action>): seq<Handled> {
    if actions == [] then []
    else
      var last := actions[|actions| - 1];
      HandledBy(actions[..|actions| - 1]) + if last.Handles? then [last.handled] else []
  }

  // ---- what connects them ----

  /** The pods a lookup at that moment would give, all at once. */
  ghost predicate PodsAgree(pods: map<string, PodCache.PodInfo>, cache: PodCache.State, at: int) {
    forall uid :: PodCache.Lookup(cache, uid, at) == if uid in pods then Some(pods[uid]) else None
  }

  /** The daemon takes the oldest unhandled event, reads the sampler's history of its
      path and the pods of the cache, if it has one, and does as Handle does. */
  ghost predicate Connected(before: seq<Action>, h: Handled, at: int, setup: Setup) {
    var run, events := HandledBy(before), PollerSpec.AllEvents(Inputs(before), setup.hasProc);
    && |run| < |events| && h.event == events[|run|]
    && h.env.history == PollerSpec.Get(SamplerSpec.Run(Passes(before), setup.cfg).history, h.event.cgroupPath)
    && (h.env.pods == None || PodsAgree(h.env.pods.value, PodCache.Run(Log(before), setup.grace, true), at))
    && IsOutcome(h, |Accepted(run)|, setup.includeNonKubernetes)
  }

  ghost predicate IsPipeline(actions: seq<Action>, setup: Setup) {
    if actions == [] then true
    else
      var front, last := actions[..|actions| - 1], actions[|actions| - 1];
      IsPipeline(front, setup) && (last.Handles? ==> Connected(front, last.handled, last.at, setup))
  }

  function EventsIn(run: seq<Handled>): seq<KillEvent> {
    seq(|run|, i requires 0 <= i < |run| => run[i].event)
  }

  /** The reports filed under a path, oldest first. */
  function ReportsAt(reports: seq<Report>, path: string): seq<Report> {
    if reports == [] then []
    else
      var last := reports[|reports| - 1];
      ReportsAt(reports[..|reports| - 1], path) + if last.identity.cgroupPath == path then [last] else []
  }

  /** Each report says of its kill what the trace says. */
  predicate Tells(reports: seq<Report>, kills: seq<PollerSpec.Kill>) {
    && |reports| == |kills|
    && forall i | 0 <= i < |kills| ::
         && reports[i].time == kills[i].time && reports[i].killCount == kills[i].killCount
         && (kills[i].groupKill.Some? ==> reports[i].groupKill == kills[i].groupKill)
  }

  // ---- the daemon, seen from one path ----

  lemma ReportsSnoc(reports: seq<Report>, r: Report, path: string)
    ensures ReportsAt(reports + [r], path) ==
            ReportsAt(reports, path) + if r.identity.cgroupPath == path then [r] else []
  {
    assert (reports + [r])[..|reports|] == reports;
  }

  lemma OutcomeTells(h: Handled, before: nat, includeNonKubernetes: bool)
    requires IsOutcome(h, before, includeNonKubernetes)
    ensures h.report == None <==> Skips(h.event, includeNonKubernetes)
    ensures h.report.Some? ==>
      && h.report.value.identity.cgroupPath == h.event.cgroupPath
      && Tells([h.report.value], [PollerSpec.Kill(h.event.time, h.event.killCount, h.event.groupKill)])
  {
    hide Parse, TrajectoryMatches, ListingMatches, Peak, Limit, Resolve;
    ResolveFollowsParse(h.event.cgroupPath, h.env.pods);
  }

  /** A path's reports tell its events one by one, unless its events are skipped. */
  lemma {:induction false} RunTells(run: seq<Handled>, includeNonKubernetes: bool, path: string)
    requires IsRun(run, includeNonKubernetes)
    ensures var reports := ReportsAt(Accepted(run), path);
      if Parse(path).Some? || includeNonKubernetes then Tells(reports, PollerSpec.KillsAt(EventsIn(run), path))
      else reports == []
  {
    hide IsOutcome, Parse, PollerSpec.KillsAt, ReportsAt, Tells;
    EmptyReports(path);
    PollerSpec.NoKills(path);
    TellsNothing();
    assert EventsIn([]) == [];
    if run != [] {
      var front, last := run[..|run| - 1], run[|run| - 1];
      RunTells(front, includeNonKubernetes, path);
      OutcomeTells(last, |Accepted(front)|, includeNonKubernetes);
      assert EventsIn(run) == EventsIn(front) + [last.event];
      PollerSpec.KillsAtConcat(EventsIn(front), [last.event], path);
      PollerSpec.KillsAtOne(last.event, path);
      NothingAdded(Accepted(front));
      NothingAdded(ReportsAt(Accepted(front), path));
      NothingAdded(PollerSpec.KillsAt(EventsIn(front), path));
      if last.report.Some? {
        ReportsSnoc(Accepted(front), last.report.value, path);
        TellsMore(ReportsAt(Accepted(front), path), PollerSpec.KillsAt(EventsIn(front), path), last.report.value,
                  PollerSpec.Kill(last.event.time, last.event.killCount, last.event.groupKill));
      }
    }
  }

  lemma TellsNothing()
    ensures Tells([], [])
  {
  }

  lemma TellsMore(reports: seq<Report>, kills: seq<PollerSpec.Kill>, r: Report, kill: PollerSpec.Kill)
    ensures Tells(reports, kills) && Tells([r], [kill]) ==> Tells(reports + [r], kills + [kill])
  {
    assert [r][0] == r && [kill][0] == kill;
  }

  lemma NothingAdded<T>(s: seq<T>)
    ensures s + [] == s
  {
  }

  lemma EmptyReports(path: string)
    ensures ReportsAt([], path) == []
  {
  }

  // ---- the channel ----

  lemma EventsGrow(inputs: seq<PollerSpec.Input>, input: PollerSpec.Input, hasProc: bool)
    ensures PollerSpec.AllEvents(inputs, hasProc) <= PollerSpec.AllEvents(inputs + [input], hasProc)
  {
    hide PollerSpec.EventsOf;
    assert (inputs + [input])[..|inputs|] == inputs;
  }

  /** What has been handled is a run of the daemon over the first of the detected
      events, in order. */
  lemma {:induction false} HandledInOrder(actions: seq<Action>, setup: Setup)
    requires IsPipeline(actions, setup)
    ensures IsRun(HandledBy(actions), setup.includeNonKubernetes)
    ensures EventsIn(HandledBy(actions)) <= PollerSpec.AllEvents(Inputs(actions), setup.hasProc)
  {
    hide IsOutcome, PollerSpec.AllEvents, Accepted, Inputs, HandledBy, EventsIn, IsRun, Connected;
    if actions == [] {
      NothingHandled(setup);
    } else {
      var front, last := actions[..|actions| - 1], actions[|actions| - 1];
      HandledInOrder(front, setup);
      ActionSnoc(front, last);
      assert actions == front + [last];
      match last
      case Polls(input) => EventsGrow(Inputs(front), input, setup.hasProc);
      case Handles(h, at) => HandledGrows(front, h, at, setup);
      case _ =>
    }
  }

  lemma NothingHandled(setup: Setup)
    ensures IsRun(HandledBy([]), setup.includeNonKubernetes) && EventsIn(HandledBy([])) == []
  {
  }

  lemma ActionSnoc(front: seq<Action>, last: Action)
    ensures Inputs(front + [last]) == if last.Polls? then Inputs(front) + [last.input] else Inputs(front)
    ensures HandledBy(front + [last]) == if last.Handles? then HandledBy(front) + [last.handled] else HandledBy(front)
  {
    assert (front + [last])[..|front|] == front;
    NothingAdded(Inputs(front));
    NothingAdded(HandledBy(front));
  }

  lemma HandledGrows(front: seq<Action>, h: Handled, at: int, setup: Setup)
    requires Connected(front, h, at, setup)
    requires IsRun(HandledBy(front), setup.includeNonKubernetes)
    requires EventsIn(HandledBy(front)) <= PollerSpec.AllEvents(Inputs(front), setup.hasProc)
    ensures IsRun(HandledBy(front) + [h], setup.includeNonKubernetes)
    ensures EventsIn(HandledBy(front) + [h]) <= PollerSpec.AllEvents(Inputs(front), setup.hasProc)
  {
    hide IsOutcome, IsRun, PollerSpec.AllEvents, Accepted, Inputs, HandledBy, PodsAgree, Passes, Log, SamplerSpec.Run;
    RunGrows(HandledBy(front), h, setup.includeNonKubernetes);
  }

  lemma RunGrows(front: seq<Handled>, h: Handled, includeNonKubernetes: bool)
    requires IsRun(front, includeNonKubernetes) && IsOutcome(h, |Accepted(front)|, includeNonKubernetes)
    ensures IsRun(front + [h], includeNonKubernetes)
    ensures EventsIn(front + [h]) == EventsIn(front) + [h.event]
  {
    hide IsOutcome, Accepted;
    assert (front + [h])[..|front|] == front;
  }

  lemma KillsOfPrefix(some: seq<KillEvent>, all: seq<KillEvent>, path: string)
    requires some <= all
    ensures PollerSpec.KillsAt(some, path) <= PollerSpec.KillsAt(all, path)
  {
    PollerSpec.KillsAtConcat(some, all[|some|..], path);
    assert some + all[|some|..] == all;
  }

  /** End to end, over any interleaving: the reports filed under a path that parses, or
      under any path when all are included, tell the strict rises of that cgroup's own
      trace in order, as far as they have been handled; once all are, there is exactly
      one report for each. Under any other path nothing is ever filed. */
  lemma ReportsAreRises(actions: seq<Action>, setup: Setup, path: string)
    requires IsPipeline(actions, setup)
    ensures var reports := ReportsAt(Accepted(HandledBy(actions)), path);
      var kills := PollerSpec.Kills(PollerSpec.Trace(Inputs(actions), path));
      if Parse(path) == None && !setup.includeNonKubernetes then reports == []
      else
        && |reports| <= |kills| && Tells(reports, kills[..|reports|])
        && (|HandledBy(actions)| == |PollerSpec.AllEvents(Inputs(actions), setup.hasProc)| ==> |reports| == |kills|)
  {
    hide *;
    var run, events := HandledBy(actions), PollerSpec.AllEvents(Inputs(actions), setup.hasProc);
    HandledInOrder(actions, setup);
    RunTells(run, setup.includeNonKubernetes, path);
    KillsOfPrefix(EventsIn(run), events, path);
    PollerSpec.EventsAreRises(Inputs(actions), setup.hasProc, path);
    EventPerHandled(run);
    var seen := PollerSpec.KillsAt(EventsIn(run), path);
    var kills := PollerSpec.Kills(PollerSpec.Trace(Inputs(actions), path));
    TellsLength(ReportsAt(Accepted(run), path), seen);
    assert seen == kills[..|seen|];
    if |run| == |events| {
      assert EventsIn(run) == events;
    }
  }

  lemma EventPerHandled(run: seq<Handled>)
    ensures |EventsIn(run)| == |run|
  {
  }

  lemma TellsLength(reports: seq<Report>, kills: seq<PollerSpec.Kill>)
    ensures Tells(reports, kills) ==> |reports| == |kills|
  {
  }

  // ---- what one report carries ----

  lemma {:induction false} HandledConnected(actions: seq<Action>, i: nat, setup: Setup)
    requires IsPipeline(actions, setup)
    requires i < |actions| && actions[i].Handles?
    ensures IsPipeline(actions[..i], setup)
    ensures Connected(actions[..i], actions[i].handled, actions[i].at, setup)
  {
    hide Connected;
    var front := actions[..|actions| - 1];
    if i < |front| {
      HandledConnected(front, i, setup);
      assert front[..i] == actions[..i] && front[i] == actions[i];
    }
  }

  /** The trajectory of a report is the path's last historySize samples since it was
      last forgotten, as the sampler's passes so far determine them; and it is empty
      exactly when the path is not retained. */
  lemma TrajectoryIsRecorded(actions: seq<Action>, i: nat, setup: Setup)
    requires IsPipeline(actions, setup) && SamplerSpec.ValidConfig(setup.cfg)
    requires i < |actions| && actions[i].Handles? && actions[i].handled.report.Some?
    ensures var report, passes := actions[i].handled.report.value, Passes(actions[..i]);
      var path, retention := actions[i].handled.event.cgroupPath, setup.cfg.retention;
      && (report.trajectory == [] <==> !SamplerSpec.Retained(passes, path, retention))
      && (SamplerSpec.Retained(passes, path, retention) ==>
            var samples := LastN(SamplerSpec.Recorded(passes, path, retention), setup.cfg.historySize);
            && |report.trajectory| == |samples|
            && forall k | 0 <= k < |samples| :: report.trajectory[k] == PointOf(samples[k]))
  {
    hide *;
    var h := actions[i].handled;
    PositiveConfig(setup.cfg);
    if SamplerSpec.Retained(Passes(actions[..i]), h.event.cgroupPath, setup.cfg.retention) {
      SamplerSpec.RetainedHasSamples(Passes(actions[..i]), h.event.cgroupPath, setup.cfg.retention);
    }
    HandledConnected(actions, i, setup);
    ConnectedReport(actions[..i], h, actions[i].at, setup);
    SamplerSpec.RunRetains(Passes(actions[..i]), setup.cfg, h.event.cgroupPath);
    TrajectoryRead(h.report.value, SamplerSpec.Run(Passes(actions[..i]), setup.cfg).history, h.event.cgroupPath);
  }

  lemma PositiveConfig(cfg: SamplerSpec.Config)
    requires SamplerSpec.ValidConfig(cfg)
    ensures cfg.historySize > 0 && cfg.retention > 0
  {
  }

  /** What being connected says of a report. */
  lemma ConnectedReport(before: seq<Action>, h: Handled, at: int, setup: Setup)
    requires Connected(before, h, at, setup) && h.report.Some?
    ensures var history := SamplerSpec.Run(Passes(before), setup.cfg).history;
      TrajectoryMatches(h.report.value.trajectory, h.report.value.trend, PollerSpec.Get(history, h.event.cgroupPath))
    ensures h.env.pods == None || PodsAgree(h.env.pods.value, PodCache.Run(Log(before), setup.grace, true), at)
    ensures var path := h.event.cgroupPath;
      h.report.value.identity == OrElse(Resolve(path, h.env.pods), Some(Unresolved(path))).value
  {
    hide TrajectoryMatches, ListingMatches, PodsAgree, Resolve, SamplerSpec.Run, PollerSpec.AllEvents, PollerSpec.Get;
    hide Passes, Inputs, Log, Skips, Accepted, HandledBy, Peak, Limit;
  }

  lemma TrajectoryRead(report: Report, history: map<string, seq<Sample>>, path: string)
    requires TrajectoryMatches(report.trajectory, report.trend, PollerSpec.Get(history, path))
    ensures if path !in history then report.trajectory == []
            else
              && |report.trajectory| == |history[path]|
              && forall k | 0 <= k < |history[path]| :: report.trajectory[k] == PointOf(history[path][k])
  {
    hide PointOf, Trend.Describes;
  }

  /** Under a clock that never goes back, a report names a pod exactly when there is a
      pod cache and the informer's log answers for the pod its path names, and then by
      that answer, the container by its ID. */
  lemma IdentityIsAnswered(actions: seq<Action>, i: nat, setup: Setup)
    requires IsPipeline(actions, setup)
    requires i < |actions| && actions[i].Handles? && actions[i].handled.report.Some?
    requires PodCache.ReadBy(Log(actions[..i]), actions[i].at)
    ensures var h := actions[i].handled;
      var identity, path := h.report.value.identity, h.event.cgroupPath;
      && identity.cgroupPath == path && identity.scope == Parse(path)
      && match Parse(path)
         case None => !identity.resolved
         case Some(scope) =>
           var answer := PodCache.Answer(Log(actions[..i]), scope.podUID, actions[i].at, setup.grace);
           && (identity.resolved <==> h.env.pods.Some? && answer.Some?)
           && (identity.resolved ==> NamedAfter(identity, scope, answer.value))
  {
    hide *;
    var h := actions[i].handled;
    HandledConnected(actions, i, setup);
    ConnectedReport(actions[..i], h, actions[i].at, setup);
    match Parse(h.event.cgroupPath)
    case None =>
      BareIdentity(h.event.cgroupPath, h.env.pods);
    case Some(scope) =>
      PodCache.LookupRefinesLog(Log(actions[..i]), scope.podUID, actions[i].at, setup.grace);
      NamedIdentity(h.event.cgroupPath, h.env.pods, PodCache.Run(Log(actions[..i]), setup.grace, true), actions[i].at);
  }

  /** A victim a report names was listed for that very cgroup by an earlier pass of the
      poller, has left it since, and was the heaviest of those who left. */
  lemma VictimWasSeen(actions: seq<Action>, i: nat, setup: Setup)
    requires IsPipeline(actions, setup)
    requires i < |actions| && actions[i].Handles? && actions[i].handled.report.Some?
    requires actions[i].handled.report.value.victim.known
    ensures setup.hasProc
    ensures var h, inputs := actions[i].handled, Inputs(actions[..i]);
      exists k, survivors, p ::
        PollerLaws.SeenAt(inputs, k, survivors, p, h.event) && h.report.value.victim == VictimFromProcess(p)
  {
    hide *;
    var h, inputs := actions[i].handled, Inputs(actions[..i]);
    HandledConnected(actions, i, setup);
    ConnectedEvent(actions[..i], h, actions[i].at, setup);
    PollerLaws.KnownVictimsWereSeen(inputs, setup.hasProc, h.event);
    var k, survivors, p :| PollerLaws.SeenAt(inputs, k, survivors, p, h.event);
    SeenNames(inputs, k, survivors, p, h.event);
  }

  lemma SeenNames(inputs: seq<PollerSpec.Input>, k: nat, survivors: seq<int>, p: Process, event: KillEvent)
    requires PollerLaws.SeenAt(inputs, k, survivors, p, event)
    ensures event.victim == VictimFromProcess(p)
  {
    hide PollerLaws.Listed, PollerLaws.SnapshotOf;
  }

  lemma ConnectedEvent(before: seq<Action>, h: Handled, at: int, setup: Setup)
    requires Connected(before, h, at, setup)
    ensures h.event in PollerSpec.AllEvents(Inputs(before), setup.hasProc)
    ensures h.report.Some? ==> h.report.value.victim == h.event.victim
  {
    hide TrajectoryMatches, ListingMatches, PodsAgree, Resolve, SamplerSpec.Run, PollerSpec.AllEvents, Passes, Inputs;
    hide Log, Skips, Accepted, HandledBy, Peak, Limit, PollerSpec.Get;
  }

  lemma BareIdentity(path: string, pods: Option<map<string, PodCache.PodInfo>>)
    requires Parse(path) == None
    ensures Resolve(path, pods) == None
    ensures OrElse(Resolve(path, pods), Some(Unresolved(path))) == Some(Unresolved(path))
    ensures Unresolved(path).scope == None && Unresolved(path).cgroupPath == path && !Unresolved(path).resolved
  {
    hide Parse;
  }

  lemma NamedIdentity(path: string, pods: Option<map<string, PodCache.PodInfo>>, cache: PodCache.State, at: int)
    requires Parse(path).Some? && (pods == None || PodsAgree(pods.value, cache, at))
    ensures var found := PodCache.Lookup(cache, Parse(path).value.podUID, at);
      var identity := OrElse(Resolve(path, pods), Some(Unresolved(path))).value;
      && identity.cgroupPath == path && identity.scope == Parse(path)
      && (identity.resolved <==> pods.Some? && found.Some?)
      && (identity.resolved ==> NamedAfter(identity, Parse(path).value, found.value))
  {
    hide Parse, PodCache.Lookup, Resolve;
    ResolveFollowsParse(path, pods);
  }
}
