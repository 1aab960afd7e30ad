/** The memory readings the rest of the agent consumes. */
module CgroupStats {
  import opened Common
  import RealVectors

  /** The limit value that stands for none. */
  const UNLIMITED: u64 := TWO_TO_64 - 1

  datatype MemoryStats = MemoryStats(
    current: u64,
    peak: u64,
    limit: u64,
    hasLocalEvents: bool,
    localKills: u64,
    treeKills: u64)
  {
    /** The cgroup's own count where the kernel keeps one, else its subtree's. */
    function OOMKills(): u64 {
      if hasLocalEvents then localKills else treeKills
    }

    /** How far usage may still grow; unlimited without a limit. */
    function Headroom(): u64 {
      if limit == UNLIMITED then UNLIMITED
      else if current >= limit then 0
      else limit - current
    }

    /** How full the cgroup is, from empty (or unlimited) to at its limit or over. */
    function UsageRatio(): (r: real)
      ensures 0.0 <= r <= 1.0
      ensures r == 1.0 <==> limit != 0 && limit != UNLIMITED && current >= limit
      ensures limit == 0 || limit == UNLIMITED ==> r == 0.0
      ensures limit != 0 && limit != UNLIMITED && current <= limit ==> r * limit as real == current as real
    {
      if limit == 0 || limit == UNLIMITED then 0.0
      else if current > limit then 1.0
      else
        RealVectors.FractionBounds(current as real, limit as real);
        current as real / limit as real
    }
  }

  /** One timestamped reading; pressureFull is PSI.Full.Avg10. */
  datatype Sample = Sample(time: int, stats: MemoryStats, pressureFull: real)

  predicate TimeSorted(samples: seq<Sample>) {
    forall i, j | 0 <= i < j < |samples| :: samples[i].time <= samples[j].time
  }
}
