/** The process listing of a report, with the victim taken out. */
module ProcessListing {
  import opened Common
  import opened Detection

  datatype VictimMatch = NoMatch | HostPid | NsPid

  /** How one listed process matches the victim: host PID first, if it has one. */
  function MatchOf(p: Process, victim: Victim, nsMatch: bool): VictimMatch {
    if victim.pid != 0 && p.pid == victim.pid then HostPid
    else if nsMatch && victim.nsPid != 0 && p.nsPid == victim.nsPid then NsPid
    else NoMatch
  }

  /** The k-th entry has this container PID and no other entry does. */
  ghost predicate OnlyAt(procs: seq<Process>, nsPid: int, k: int) {
    0 <= k < |procs| && procs[k].nsPid == nsPid && forall j | 0 <= j < |procs| && j != k :: procs[j].nsPid != nsPid
  }

  /** The container PID picks out one entry of the listing. */
  ghost predicate Unambiguous(procs: seq<Process>, nsPid: int) {
    nsPid != 0 && exists k :: OnlyAt(procs, nsPid, k)
  }

  function CountNs(procs: seq<Process>, nsPid: int): nat {
    if procs == [] then 0
    else CountNs(procs[..|procs| - 1], nsPid) + if procs[|procs| - 1].nsPid == nsPid then 1 else 0
  }

  lemma {:induction false} CountZero(procs: seq<Process>, nsPid: int)
    ensures CountNs(procs, nsPid) == 0 <==> forall j | 0 <= j < |procs| :: procs[j].nsPid != nsPid
  {
    if procs != [] {
      CountZero(procs[..|procs| - 1], nsPid);
    }
  }

  lemma {:induction false} CountedOnce(procs: seq<Process>, nsPid: int) returns (k: int)
    requires CountNs(procs, nsPid) == 1
    ensures OnlyAt(procs, nsPid, k)
  {
    var front := procs[..|procs| - 1];
    CountZero(front, nsPid);
    if procs[|front|].nsPid == nsPid {
      k := |front|;
    } else {
      k := CountedOnce(front, nsPid);
    }
  }

  lemma {:induction false} OnlyCountsOnce(procs: seq<Process>, nsPid: int, k: int)
    requires OnlyAt(procs, nsPid, k)
    ensures CountNs(procs, nsPid) == 1
  {
    var front := procs[..|procs| - 1];
    CountZero(front, nsPid);
    if k < |front| {
      OnlyCountsOnce(front, nsPid, k);
    }
  }

  lemma CountOne(procs: seq<Process>, nsPid: int)
    requires nsPid != 0
    ensures CountNs(procs, nsPid) == 1 <==> Unambiguous(procs, nsPid)
  {
    if CountNs(procs, nsPid) == 1 {
      var k := CountedOnce(procs, nsPid);
    } else if Unambiguous(procs, nsPid) {
      var k :| OnlyAt(procs, nsPid, k);
      OnlyCountsOnce(procs, nsPid, k);
    }
  }

  /** Counts the entries with that container PID. */
  method NSPidIsUnambiguous(procs: seq<Process>, nsPid: int) returns (r: bool)
    ensures r <==> Unambiguous(procs, nsPid)
  {
    if nsPid == 0 {
      return false;
    }
    var seen := 0;
    for i := 0 to |procs|
      invariant seen == CountNs(procs[..i], nsPid)
    {
      assert procs[..i + 1][..i] == procs[..i];
      if procs[i].nsPid == nsPid {
        seen := seen + 1;
      }
    }
    assert procs[..|procs|] == procs;
    CountOne(procs, nsPid);
    return seen == 1;
  }

  ghost predicate Matches(procs: seq<Process>, victim: Victim, k: int)
    requires 0 <= k < |procs|
  {
    MatchOf(procs[k], victim, Unambiguous(procs, victim.nsPid)) != NoMatch
  }

  /** The listing is the process list with exactly the first match taken out, and
      the basis is that match's; with no match nothing is taken out. */
  ghost predicate IsListing(procs: seq<Process>, victim: Victim, listed: seq<Process>, basis: VictimMatch) {
    if forall k | 0 <= k < |procs| :: !Matches(procs, victim, k) then listed == procs && basis == NoMatch
    else exists k | 0 <= k < |procs| ::
           && Matches(procs, victim, k)
           && (forall j | 0 <= j < k :: !Matches(procs, victim, j))
           && listed == procs[..k] + procs[k + 1..]
           && basis == MatchOf(procs[k], victim, Unambiguous(procs, victim.nsPid))
  }

  /** Report entries for a container's processes, less the victim, and the
      identifier that found it. */
  method ProcessesFrom(procs: seq<Process>, victim: Victim) returns (listed: seq<Process>, basis: VictimMatch)
    ensures IsListing(procs, victim, listed, basis)
  {
    listed := [];
    var nsMatch := NSPidIsUnambiguous(procs, victim.nsPid);
    basis := NoMatch;
    ghost var cut := -1;
    for i := 0 to |procs|
      invariant cut < i
      invariant basis == NoMatch <==> cut == -1
      invariant cut == -1 ==> listed == procs[..i] && forall j | 0 <= j < i :: !Matches(procs, victim, j)
      invariant cut != -1 ==>
        && 0 <= cut && Matches(procs, victim, cut)
        && (forall j | 0 <= j < cut :: !Matches(procs, victim, j))
        && listed == procs[..cut] + procs[cut + 1..i]
        && basis == MatchOf(procs[cut], victim, nsMatch)
    {
      var found := MatchOf(procs[i], victim, nsMatch);
      if found != NoMatch && basis == NoMatch {
        basis := found;
        cut := i;
        continue;
      }
      listed := listed + [procs[i]];
    }
    assert procs[..|procs|] == procs;
    if cut != -1 {
      assert procs[cut + 1..|procs|] == procs[cut + 1..];
      assert Matches(procs, victim, cut);
    }
  }

  // ---- what a listing promises ----

  /** At most one process leaves; the basis is none exactly when none left. */
  lemma ListingLosesAtMostOne(procs: seq<Process>, victim: Victim, listed: seq<Process>, basis: VictimMatch)
    requires IsListing(procs, victim, listed, basis)
    ensures basis == NoMatch <==> listed == procs
    ensures basis != NoMatch <==> |listed| == |procs| - 1
    ensures multiset(listed) <= multiset(procs)
  {
    if basis != NoMatch {
      var k :| 0 <= k < |procs| && Matches(procs, victim, k) && listed == procs[..k] + procs[k + 1..];
      hide IsListing, Matches;
      RemovalLosesOne(procs, k);
    }
  }

  lemma RemovalLosesOne(procs: seq<Process>, k: nat)
    requires k < |procs|
    ensures var listed := procs[..k] + procs[k + 1..];
      multiset(listed) + multiset{procs[k]} == multiset(procs) && |listed| == |procs| - 1
  {
    assert procs == procs[..k] + [procs[k]] + procs[k + 1..];
  }

  /** The k-th process is the victim by its host PID, or else, where only one process
      carries it, by its container PID. */
  ghost predicate VictimAt(procs: seq<Process>, victim: Victim, k: nat, basis: VictimMatch)
    requires k < |procs|
  {
    if victim.pid != 0 && procs[k].pid == victim.pid then basis == HostPid
    else
      && basis == NsPid
      && victim.nsPid != 0 && procs[k].nsPid == victim.nsPid
      && forall j | 0 <= j < |procs| && j != k :: procs[j].nsPid != victim.nsPid
  }

  ghost predicate NowhereVictim(procs: seq<Process>, victim: Victim, n: nat)
    requires n <= |procs|
  {
    forall k | 0 <= k < n :: !VictimAt(procs, victim, k, HostPid) && !VictimAt(procs, victim, k, NsPid)
  }

  /** A listing, on the processes' own fields: the first that is the victim goes, and
      the basis is its host PID whenever that matches, even if both do. */
  lemma ListingOnFields(procs: seq<Process>, victim: Victim, listed: seq<Process>, basis: VictimMatch)
    requires IsListing(procs, victim, listed, basis)
    ensures basis == NoMatch ==> listed == procs && NowhereVictim(procs, victim, |procs|)
    ensures basis != NoMatch ==> exists k: nat | k < |procs| ::
              && VictimAt(procs, victim, k, basis)
              && NowhereVictim(procs, victim, k)
              && listed == procs[..k] + procs[k + 1..]
  {
    forall k: nat | k < |procs|
      ensures Matches(procs, victim, k) ==>
                VictimAt(procs, victim, k, MatchOf(procs[k], victim, Unambiguous(procs, victim.nsPid)))
      ensures !Matches(procs, victim, k) ==>
                !VictimAt(procs, victim, k, HostPid) && !VictimAt(procs, victim, k, NsPid)
    {
      MatchOnFields(procs, victim, k);
    }
    assert basis == NoMatch ==> forall k | 0 <= k < |procs| :: !Matches(procs, victim, k);
    hide MatchOf, Unambiguous, VictimAt;
  }

  lemma MatchOnFields(procs: seq<Process>, victim: Victim, k: nat)
    requires k < |procs|
    ensures Matches(procs, victim, k) ==>
              VictimAt(procs, victim, k, MatchOf(procs[k], victim, Unambiguous(procs, victim.nsPid)))
    ensures !Matches(procs, victim, k) ==>
              !VictimAt(procs, victim, k, HostPid) && !VictimAt(procs, victim, k, NsPid)
  {
    if Unambiguous(procs, victim.nsPid) {
      var m :| OnlyAt(procs, victim.nsPid, m);
      assert procs[k].nsPid == victim.nsPid ==> m == k;
    } else {
      assert victim.nsPid != 0 ==> !OnlyAt(procs, victim.nsPid, k);
    }
  }

  /** A process taken out by container PID alone was the only one carrying it, so
      no running process is dropped for the victim. */
  lemma NsPidRemovalIsExact(procs: seq<Process>, victim: Victim, listed: seq<Process>)
    requires IsListing(procs, victim, listed, NsPid)
    ensures victim.nsPid != 0 && Unambiguous(procs, victim.nsPid)
    ensures forall p | p in listed :: p.nsPid != victim.nsPid
  {
    var k :| 0 <= k < |procs| && Matches(procs, victim, k)
             && (forall j | 0 <= j < k :: !Matches(procs, victim, j))
             && listed == procs[..k] + procs[k + 1..]
             && NsPid == MatchOf(procs[k], victim, Unambiguous(procs, victim.nsPid));
    var m :| OnlyAt(procs, victim.nsPid, m);
    assert m == k;
    hide IsListing, Matches, MatchOf, Unambiguous;
    RemovedOnly(procs, victim.nsPid, k);
  }

  lemma RemovedOnly(procs: seq<Process>, nsPid: int, k: nat)
    requires OnlyAt(procs, nsPid, k)
    ensures forall p | p in procs[..k] + procs[k + 1..] :: p.nsPid != nsPid
  {
    var listed := procs[..k] + procs[k + 1..];
    forall i | 0 <= i < |listed|
      ensures listed[i].nsPid != nsPid
    {
      assert listed[i] == procs[if i < k then i else i + 1];
    }
  }

  /** An earlier process than the v-th goes by container PID. */
  ghost predicate NsMatchBefore(procs: seq<Process>, victim: Victim, v: nat)
    requires v <= |procs|
  {
    Unambiguous(procs, victim.nsPid) && exists j | 0 <= j < v :: procs[j].nsPid == victim.nsPid
  }

  /** The victim's host PID, first listed at v, is still there afterwards exactly when
      an earlier process goes in its place by container PID, or the PID is listed
      again: only one entry leaves, and the listing need not be free of repeats. */
  lemma HostPidLeaves(procs: seq<Process>, victim: Victim, listed: seq<Process>, basis: VictimMatch, v: nat)
    requires IsListing(procs, victim, listed, basis)
    requires v < |procs| && victim.pid != 0 && procs[v].pid == victim.pid
    requires forall j | 0 <= j < v :: procs[j].pid != victim.pid
    ensures (exists p | p in listed :: p.pid == victim.pid) <==>
              NsMatchBefore(procs, victim, v) || exists j | v < j < |procs| :: procs[j].pid == victim.pid
  {
    assert Matches(procs, victim, v);
    var k :| 0 <= k < |procs| && Matches(procs, victim, k)
             && (forall j | 0 <= j < k :: !Matches(procs, victim, j))
             && listed == procs[..k] + procs[k + 1..];
    FirstMatch(procs, victim, k, v);
    hide IsListing, Matches, NsMatchBefore;
    if k < v {
      assert listed[v - 1] == procs[v];
      assert listed[v - 1] in listed;
    } else {
      RepeatsRemain(procs, victim.pid, v);
    }
  }

  /** Whether the first match is the host PID or a container PID before it. */
  lemma FirstMatch(procs: seq<Process>, victim: Victim, k: nat, v: nat)
    requires v < |procs| && victim.pid != 0 && procs[v].pid == victim.pid
    requires forall j | 0 <= j < v :: procs[j].pid != victim.pid
    requires k < |procs| && Matches(procs, victim, k) && forall j | 0 <= j < k :: !Matches(procs, victim, j)
    ensures k <= v
    ensures k < v <==> NsMatchBefore(procs, victim, v)
  {
    assert Matches(procs, victim, v);
    if NsMatchBefore(procs, victim, v) {
      var j :| 0 <= j < v && procs[j].nsPid == victim.nsPid;
      assert Matches(procs, victim, j);
    }
  }

  lemma RepeatsRemain(procs: seq<Process>, pid: int, v: nat)
    requires v < |procs| && forall j | 0 <= j < v :: procs[j].pid != pid
    ensures (exists p | p in procs[..v] + procs[v + 1..] :: p.pid == pid) <==>
              exists j | v < j < |procs| :: procs[j].pid == pid
  {
    var listed := procs[..v] + procs[v + 1..];
    if j :| v < j < |procs| && procs[j].pid == pid {
      assert listed[j - 1] == procs[j];
      assert listed[j - 1] in listed;
    }
    if p :| p in listed && p.pid == pid {
      var i :| 0 <= i < |listed| && listed[i] == p;
      assert listed[i] == procs[if i < v then i else i + 1];
    }
  }

  /** And that can happen: the entry with the victim's host PID stays, and an earlier
      one goes by its container PID. Which of them was the victim depends on the
      namespace the reader's own PIDs belong to. */
  lemma EarlierNsPidWins(comm: string)
    ensures var earlier, later := Process(10, 7, comm, [], 0), Process(20, 8, comm, [], 0);
      var victim := Victim(20, 7, comm, [], 0, false, true);
      IsListing([earlier, later], victim, [later], NsPid)
  {
    var earlier, later := Process(10, 7, comm, [], 0), Process(20, 8, comm, [], 0);
    var victim := Victim(20, 7, comm, [], 0, false, true);
    var procs := [earlier, later];
    assert procs[0].nsPid == 7 && procs[1].nsPid == 8;
    assert OnlyAt(procs, 7, 0);
    assert Matches(procs, victim, 0);
    assert [later] == procs[..0] + procs[1..];
  }
}
