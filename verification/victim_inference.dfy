/** Deducing which process died from who is missing. */
module VictimInference {
  import opened Common
  import opened Detection

  /** Every entry of a snapshot is keyed by its own PID. */
  predicate KeyedByPid(snapshot: map<int, Process>) {
    forall pid | pid in snapshot :: snapshot[pid].pid == pid
  }

  /** A listing indexed by PID; a later entry replaces an earlier one. */
  function ByPid(listing: seq<Process>): (snapshot: map<int, Process>)
    ensures KeyedByPid(snapshot)
    ensures forall pid | pid in snapshot :: snapshot[pid] in listing
    ensures forall p | p in listing :: p.pid in snapshot
  {
    if listing == [] then map[]
    else
      var last := listing[|listing| - 1];
      ByPid(listing[..|listing| - 1])[last.pid := last]
  }

  lemma ByPidSnoc(listing: seq<Process>, i: nat)
    requires i < |listing|
    ensures ByPid(listing[..i + 1]) == ByPid(listing[..i])[listing[i].pid := listing[i]]
  {
    hide KeyedByPid;
    assert listing[..i + 1][..i] == listing[..i];
  }

  lemma {:induction false} LastUpTo(listing: seq<Process>, k: nat, n: nat)
    requires k < n <= |listing|
    requires forall j | k < j < n :: listing[j].pid != listing[k].pid
    ensures listing[k].pid in ByPid(listing[..n]) && ByPid(listing[..n])[listing[k].pid] == listing[k]
    decreases n
  {
    hide ByPid, KeyedByPid;
    ByPidSnoc(listing, n - 1);
    if k < n - 1 {
      LastUpTo(listing, k, n - 1);
    }
  }

  /** Of several entries with one PID the last is kept. */
  lemma LastOfPid(listing: seq<Process>, k: nat)
    requires k < |listing| && forall j | k < j < |listing| :: listing[j].pid != listing[k].pid
    ensures listing[k].pid in ByPid(listing) && ByPid(listing)[listing[k].pid] == listing[k]
  {
    hide ByPid, KeyedByPid;
    LastUpTo(listing, k, |listing|);
    assert listing[..|listing|] == listing;
  }

  /** Heaviest first, the lower PID first among equals. */
  predicate Before(a: Process, b: Process) {
    a.rssBytes > b.rssBytes || (a.rssBytes == b.rssBytes && a.pid < b.pid)
  }

  /** The processes of a snapshot that are gone. */
  function Missing(snapshot: map<int, Process>, alive: set<int>): set<Process> {
    set pid | pid in snapshot && pid !in alive :: snapshot[pid]
  }

  ghost predicate DistinctPids(ps: set<Process>) {
    forall a, b | a in ps && b in ps && a.pid == b.pid :: a == b
  }

  ghost predicate IsHeaviest(p: Process, ps: set<Process>) {
    p in ps && forall q | q in ps && q != p :: Before(p, q)
  }

  lemma MissingDistinct(snapshot: map<int, Process>, alive: set<int>)
    requires KeyedByPid(snapshot)
    ensures DistinctPids(Missing(snapshot, alive))
  {
  }

  lemma {:induction false} HeaviestExists(ps: set<Process>) returns (p: Process)
    requires ps != {} && DistinctPids(ps)
    ensures IsHeaviest(p, ps)
  {
    var q :| q in ps;
    if ps == {q} {
      p := q;
    } else {
      var rest := ps - {q};
      assert ps == rest + {q};
      var r := HeaviestExists(rest);
      p := if Before(q, r) then q else r;
    }
  }

  lemma HeaviestUnique(p: Process, q: Process, ps: set<Process>)
    requires IsHeaviest(p, ps) && IsHeaviest(q, ps)
    ensures p == q
  {
  }

  /** The heaviest of the missing, when anyone is missing. */
  ghost predicate IsInferred(victim: Victim, snapshot: map<int, Process>, alive: set<int>) {
    if Missing(snapshot, alive) == {} then victim == NO_VICTIM
    else exists p :: IsHeaviest(p, Missing(snapshot, alive)) && victim == VictimFromProcess(p)
  }

  /** The victim deduced from the previous snapshot and the survivors: nobody when
      there is no snapshot, no process reader, or no list of survivors. */
  ghost function Inferred(snapshot: Option<map<int, Process>>, survivors: Option<seq<int>>, hasProc: bool)
    : (victim: Victim)
    ensures snapshot.Some? && hasProc && survivors.Some? && KeyedByPid(snapshot.value) ==>
              IsInferred(victim, snapshot.value, set pid | pid in survivors.value)
    ensures snapshot == None || !hasProc || survivors == None ==> victim == NO_VICTIM
  {
    if snapshot == None || !hasProc || survivors == None || !KeyedByPid(snapshot.value) then NO_VICTIM
    else
      var alive := set pid | pid in survivors.value;
      InferenceDetermined(snapshot.value, alive);
      var victim :| IsInferred(victim, snapshot.value, alive);
      victim
  }

  /** Exactly one victim can be inferred. */
  lemma InferenceDetermined(snapshot: map<int, Process>, alive: set<int>)
    requires KeyedByPid(snapshot)
    ensures exists v :: IsInferred(v, snapshot, alive)
    ensures forall v, w | IsInferred(v, snapshot, alive) && IsInferred(w, snapshot, alive) :: v == w
  {
    var missing := Missing(snapshot, alive);
    if missing == {} {
      assert IsInferred(NO_VICTIM, snapshot, alive);
    } else {
      MissingDistinct(snapshot, alive);
      var p := HeaviestExists(missing);
      assert IsInferred(VictimFromProcess(p), snapshot, alive);
      forall v, w | IsInferred(v, snapshot, alive) && IsInferred(w, snapshot, alive)
        ensures v == w
      {
        var a :| IsHeaviest(a, missing) && v == VictimFromProcess(a);
        var b :| IsHeaviest(b, missing) && w == VictimFromProcess(b);
        HeaviestUnique(a, b, missing);
      }
    }
  }

  // ---- sorting the candidates ----

  predicate Ordered(ps: seq<Process>) {
    forall i, j | 0 <= i < j < |ps| :: !Before(ps[j], ps[i])
  }

  function Insert(p: Process, ps: seq<Process>): seq<Process> {
    if ps != [] && Before(ps[0], p) then [ps[0]] + Insert(p, ps[1..]) else [p] + ps
  }

  lemma {:induction false} InsertKeepsAll(p: Process, ps: seq<Process>)
    ensures multiset(Insert(p, ps)) == multiset(ps) + multiset{p}
  {
    if ps != [] && Before(ps[0], p) {
      InsertKeepsAll(p, ps[1..]);
      assert ps == [ps[0]] + ps[1..];
    }
  }

  lemma {:induction false} InsertKeepsOrder(p: Process, ps: seq<Process>)
    requires Ordered(ps)
    ensures Ordered(Insert(p, ps))
  {
    if ps != [] && Before(ps[0], p) {
      InsertKeepsOrder(p, ps[1..]);
      InsertedOrKept(p, ps[1..]);
      OrderedCons(ps[0], Insert(p, ps[1..]));
    }
  }

  lemma {:induction false} InsertedOrKept(p: Process, ps: seq<Process>)
    ensures forall q | q in Insert(p, ps) :: q == p || q in ps
  {
    if ps != [] && Before(ps[0], p) {
      InsertedOrKept(p, ps[1..]);
    }
  }

  lemma OrderedCons(p: Process, rest: seq<Process>)
    requires Ordered(rest) && forall q | q in rest :: !Before(q, p)
    ensures Ordered([p] + rest)
  {
    hide Before;
    assert forall i | 0 <= i < |rest| :: rest[i] in rest;
  }

  /** A sort of the candidates: the same processes, in order. */
  function Sorted(ps: seq<Process>): (r: seq<Process>)
    ensures Ordered(r) && multiset(r) == multiset(ps)
  {
    if ps == [] then []
    else
      assert ps == [ps[0]] + ps[1..];
      InsertKeepsAll(ps[0], Sorted(ps[1..]));
      InsertKeepsOrder(ps[0], Sorted(ps[1..]));
      Insert(ps[0], Sorted(ps[1..]))
  }

  /** Whatever order the candidates were gathered in, and however they were sorted,
      the same process comes first: the heaviest. */
  lemma SortedHead(candidates: seq<Process>, sorted: seq<Process>, ps: set<Process>)
    requires forall p :: p in candidates <==> p in ps
    requires multiset(sorted) == multiset(candidates) && Ordered(sorted)
    requires DistinctPids(ps) && ps != {}
    ensures sorted != [] && IsHeaviest(sorted[0], ps)
  {
    assert forall p :: p in sorted <==> p in multiset(sorted);
    assert forall p :: p in candidates <==> p in multiset(candidates);
    var q :| q in ps;
    assert q in sorted;
    forall p | p in ps && p != sorted[0]
      ensures Before(sorted[0], p)
    {
      assert p in sorted;
      var i :| 0 <= i < |sorted| && sorted[i] == p;
      assert !Before(sorted[i], sorted[0]);
      assert sorted[0] in sorted;
    }
  }

  // ---- what is inferred, on the processes' own fields ----

  /** The victim is known exactly when some process of the snapshot is gone, and is then
      one of those, with none gone that held more memory, nor as much under a lower
      PID; otherwise nothing at all is said of it. */
  ghost predicate HeaviestGone(victim: Victim, snapshot: map<int, Process>, survivors: seq<int>) {
    && (victim.known <==> exists pid :: pid in snapshot && pid !in survivors)
    && (!victim.known ==> victim == Victim(0, 0, "", [], 0, false, false))
    && (victim.known ==>
          && victim.inferred
          && victim.pid in snapshot && victim.pid !in survivors
          && victim.nsPid == snapshot[victim.pid].nsPid && victim.comm == snapshot[victim.pid].comm
          && victim.cmdline == snapshot[victim.pid].cmdline && victim.rssBytes == snapshot[victim.pid].rssBytes
          && forall pid | pid in snapshot && pid !in survivors && pid != victim.pid ::
               && snapshot[pid].rssBytes <= victim.rssBytes
               && (snapshot[pid].rssBytes == victim.rssBytes ==> victim.pid < pid))
  }

  lemma InferredIsHeaviestGone(victim: Victim, snapshot: map<int, Process>, survivors: seq<int>)
    requires KeyedByPid(snapshot)
    requires IsInferred(victim, snapshot, set pid | pid in survivors)
    ensures HeaviestGone(victim, snapshot, survivors)
  {
    var alive := set pid | pid in survivors;
    var missing := Missing(snapshot, alive);
    assert forall pid | pid in snapshot && pid !in survivors :: snapshot[pid] in missing;
    if missing != {} {
      var p :| IsHeaviest(p, missing) && victim == VictimFromProcess(p);
      forall pid | pid in snapshot && pid !in survivors && pid != victim.pid
        ensures snapshot[pid].rssBytes <= victim.rssBytes
        ensures snapshot[pid].rssBytes == victim.rssBytes ==> victim.pid < pid
      {
        assert Before(p, snapshot[pid]);
      }
    }
  }

  /** Heaviest, on the fields. */
  lemma HeaviestOnFields(p: Process, ps: set<Process>)
    requires DistinctPids(ps)
    ensures IsHeaviest(p, ps) <==>
      && p in ps
      && forall q | q in ps && q != p :: q.rssBytes <= p.rssBytes && (q.rssBytes == p.rssBytes ==> p.pid < q.pid)
  {
  }

  /** Gathers the missing in any order, sorts them, and names the first. */
  method InferVictim(snapshot: Option<map<int, Process>>, survivors: Option<seq<int>>, hasProc: bool)
    returns (victim: Victim)
    requires snapshot.Some? ==> KeyedByPid(snapshot.value)
    ensures victim == Inferred(snapshot, survivors, hasProc)
    ensures snapshot.Some? && survivors.Some? && hasProc ==> HeaviestGone(victim, snapshot.value, survivors.value)
    ensures snapshot == None || survivors == None || !hasProc ==> victim == Victim(0, 0, "", [], 0, false, false)
  {
    if snapshot == None || !hasProc {
      return NO_VICTIM;
    }
    if survivors == None {
      return NO_VICTIM;
    }
    var alive := set pid | pid in survivors.value;
    var previous := snapshot.value;
    var candidates: seq<Process> := [];
    var todo := previous.Items;
    while todo != {}
      invariant todo <= previous.Items
      invariant forall p | p in candidates :: p in Missing(previous, alive)
      invariant forall pid | pid in previous && (pid, previous[pid]) !in todo && pid !in alive ::
        previous[pid] in candidates
    {
      var item :| item in todo;
      todo := todo - {item};
      var (pid, process) := item;
      if pid !in alive {
        candidates := candidates + [process];
      }
    }
    InferenceDetermined(previous, alive);
    ghost var missing := Missing(previous, alive);
    assert forall p :: p in candidates <==> p in missing;
    if |candidates| == 0 {
      assert missing == {};
      InferredIsHeaviestGone(NO_VICTIM, previous, survivors.value);
      return NO_VICTIM;
    }
    assert candidates[0] in missing;
    MissingDistinct(previous, alive);
    var sorted := Sorted(candidates);
    SortedHead(candidates, sorted, missing);
    victim := VictimFromProcess(sorted[0]);
    assert IsInferred(victim, previous, alive);
    InferredIsHeaviestGone(victim, previous, survivors.value);
  }
}
