/** What detectors observe: processes, victims and kill events. */
module Detection {
  import opened Common

  datatype Process = Process(pid: int, nsPid: int, comm: string, cmdline: seq<string>, rssBytes: u64)

  datatype Victim = Victim(
    pid: int, nsPid: int, comm: string, cmdline: seq<string>, rssBytes: u64, inferred: bool, known: bool)

  const NO_VICTIM: Victim := Victim(0, 0, "", [], 0, false, false)

  datatype Source = EBPF | PollerSource | Fake

  datatype KillEvent = KillEvent(
    time: int,
    cgroupPath: string,
    victim: Victim,
    killCount: u64,
    groupKill: Option<bool>,
    source: Source)

  /** The process taken for the victim, marked as a guess. */
  function VictimFromProcess(p: Process): Victim {
    Victim(p.pid, p.nsPid, p.comm, p.cmdline, p.rssBytes, true, true)
  }
}
