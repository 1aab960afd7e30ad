/** The post-mortem report and the identity it is filed under. */
module Reports {
  import opened Common
  import opened CgroupStats
  import opened CgroupPath
  import opened Detection
  import opened PodCache
  import opened ProcessListing
  import Trend

  /** What is known of a path: its scope, if it parses, and cluster names, if found. */
  datatype Identity = Identity(
    scope: Option<Scope>,
    cgroupPath: string,
    namespace: string,
    podName: string,
    containerName: string,
    image: string,
    resolved: bool)

  /** The identity of an unresolved path: the path itself and nothing else. */
  function Unresolved(path: string): Identity {
    Identity(None, path, "", "", "", "", false)
  }

  /** Resolve joins a path to the pods known at that moment; without a lookup the
      path alone speaks. A pod-level path never borrows a container's name. */
  function Resolve(path: string, pods: Option<map<string, PodInfo>>): Option<Identity> {
    match Parse(path)
    case None => None
    case Some(scope) =>
      var bare := Unresolved(path).(scope := Some(scope));
      if pods == None || scope.podUID !in pods.value then Some(bare)
      else
        var pod := pods.value[scope.podUID];
        var named := bare.(namespace := pod.namespace, podName := pod.name, resolved := true);
        if scope.containerID in pod.containers && scope.kind == ContainerScope then
          var container := pod.containers[scope.containerID];
          Some(named.(containerName := container.name, image := container.image))
        else Some(named)
  }

  datatype TrajectoryPoint = TrajectoryPoint(
    time: int,
    usedBytes: u64,
    limitBytes: u64,
    ratio: real,
    pressureFull: real)

  function PointOf(s: Sample): TrajectoryPoint {
    TrajectoryPoint(s.time, s.stats.current, FlatLimit(s.stats.limit), s.stats.UsageRatio(), s.pressureFull)
  }

  /** An absent ceiling is reported as zero. */
  function FlatLimit(limit: u64): u64 {
    if limit == UNLIMITED then 0 else limit
  }

  /** What a point says of its sample: a limit of none is written as zero, and the ratio
      is usage over the limit, at most one. */
  predicate PointOnFields(p: TrajectoryPoint, s: Sample) {
    var none := 0xFFFF_FFFF_FFFF_FFFF;
    && p.time == s.time
    && p.usedBytes == s.stats.current
    && p.limitBytes == (if s.stats.limit == none then 0 else s.stats.limit)
    && p.pressureFull == s.pressureFull
    && (p.limitBytes == 0 ==> p.ratio == 0.0)
    && (p.limitBytes != 0 && s.stats.current >= s.stats.limit ==> p.ratio == 1.0)
    && (p.limitBytes != 0 && s.stats.current <= s.stats.limit ==>
          p.ratio * p.limitBytes as real == p.usedBytes as real)
  }

  lemma PointsOnFields(s: Sample)
    ensures PointOnFields(PointOf(s), s)
  {
  }

  /** One point per sample, in order. */
  method TrajectoryFrom(samples: seq<Sample>) returns (points: seq<TrajectoryPoint>)
    ensures |points| == |samples|
    ensures forall i | 0 <= i < |samples| :: points[i] == PointOf(samples[i]) && PointOnFields(points[i], samples[i])
  {
    points := [];
    for i := 0 to |samples|
      invariant |points| == i
      invariant forall j | 0 <= j < i :: points[j] == PointOf(samples[j]) && PointOnFields(points[j], samples[j])
    {
      PointsOnFields(samples[i]);
      var limit := samples[i].stats.limit;
      if limit == UNLIMITED {
        limit := 0;
      }
      var stats := samples[i].stats;
      points := points + [
        TrajectoryPoint(samples[i].time, stats.current, limit, stats.UsageRatio(), samples[i].pressureFull)];
    }
  }

  datatype Report = Report(
    id: string,
    time: int,
    identity: Identity,
    victim: Victim,
    source: Source,
    killCount: u64,
    limitBytes: u64,
    peakBytes: u64,
    trajectory: seq<TrajectoryPoint>,
    processes: seq<Process>,
    victimMatch: Option<VictimMatch>,
    groupKill: Option<bool>,
    trend: Trend.Trend)
}
