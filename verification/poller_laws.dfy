/** What the poller's reports promise over a whole run: no kill is replayed, and a
    named victim was really seen before. */
module PollerLaws {
  import opened Common
  import opened CgroupStats
  import opened Detection
  import opened VictimInference
  import opened PollerSpec

  // ---- counting kills ----

  /** One life of a cgroup under a counter that never falls: a first reading, then
      announced readings only. */
  predicate OneLife(items: seq<Item>) {
    && items != []
    && (forall i | 0 <= i < |items| :: items[i].Reading?)
    && (forall i | 0 < i < |items| :: items[i].at.Some?)
    && (forall i, j | 0 <= i < j < |items| :: items[i].kills <= items[j].kills)
  }

  /** The kills the reported rises account for. */
  function Accounted(items: seq<Item>): int {
    if items == [] then 0
    else
      var n := |items| - 1;
      Accounted(items[..n]) + if IsRise(items, n) then items[n].kills - items[n - 1].kills else 0
  }

  /** The rises telescope: every kill after the first reading is accounted for
      once, none before it, and none twice. */
  lemma {:induction false} RisesTelescope(items: seq<Item>)
    requires OneLife(items)
    ensures Accounted(items) == items[|items| - 1].kills - items[0].kills
  {
    var n := |items| - 1;
    if n > 0 {
      RisesTelescope(items[..n]);
    } else {
      assert items[..0] == [];
    }
  }

  /** Kill counts climbing strictly from above lo to exactly hi. */
  predicate Climbs(kills: seq<Kill>, lo: int, hi: int) {
    && (forall i, j | 0 <= i < j < |kills| :: kills[i].killCount < kills[j].killCount)
    && (forall i | 0 <= i < |kills| :: lo < kills[i].killCount <= hi)
    && (if kills == [] then lo == hi else kills[|kills| - 1].killCount == hi)
  }

  lemma ClimbsSnoc(kills: seq<Kill>, lo: int, hi: int, next: Kill)
    requires Climbs(kills, lo, hi) && hi < next.killCount
    ensures Climbs(kills + [next], lo, next.killCount)
  {
  }

  /** Reported kill counts strictly increase within a life, above the baseline and
      up to the last reading; nothing is reported exactly when nothing rose. */
  lemma {:induction false} KillCountsIncrease(items: seq<Item>)
    requires OneLife(items)
    ensures Climbs(Kills(items), items[0].kills, items[|items| - 1].kills)
  {
    hide Climbs;
    var n := |items| - 1;
    if n > 0 {
      KillCountsIncrease(items[..n]);
      if IsRise(items, n) {
        var rise := Kill(items[n].at.value, items[n].kills, items[n].groupKill);
        ClimbsSnoc(Kills(items[..n]), items[0].kills, items[n - 1].kills, rise);
      } else {
        assert Kills(items[..n]) + [] == Kills(items[..n]);
      }
    } else {
      assert items[..0] == [];
      assert Kills(items) == [];
      NothingClimbs(items[0].kills);
    }
  }

  lemma NothingClimbs(lo: int)
    ensures Climbs([], lo, lo)
  {
  }

  // ---- which counter rises ----

  /** What was read of one cgroup, aligned with its trace: the statistics themselves,
      or nothing where it had disappeared. */
  function StatsIn(entries: seq<Entry>, path: string): seq<Option<MemoryStats>> {
    if entries == [] then []
    else
      var last := entries[|entries| - 1];
      StatsIn(entries[..|entries| - 1], path) + if last.path == path && last.stats.Some? then [last.stats] else []
  }

  function StatsOf(input: Input, path: string): seq<Option<MemoryStats>> {
    if input.Poll? && path !in Paths(input.entries) then [None] else StatsIn(input.entries, path)
  }

  function StatsRead(inputs: seq<Input>, path: string): seq<Option<MemoryStats>> {
    if inputs == [] then [] else StatsRead(inputs[..|inputs| - 1], path) + StatsOf(inputs[|inputs| - 1], path)
  }

  /** Each reading of the trace is the local counter of what was read, or the subtree's
      where the kernel keeps no local one. */
  predicate Aligned(items: seq<Item>, stats: seq<Option<MemoryStats>>) {
    && |items| == |stats|
    && forall i | 0 <= i < |items| ::
         && (items[i].Reading? <==> stats[i].Some?)
         && (stats[i].Some? && stats[i].value.hasLocalEvents ==> items[i].kills == stats[i].value.localKills)
         && (stats[i].Some? && !stats[i].value.hasLocalEvents ==> items[i].kills == stats[i].value.treeKills)
  }

  lemma AlignedConcat(
    items: seq<Item>, stats: seq<Option<MemoryStats>>, more: seq<Item>, moreStats: seq<Option<MemoryStats>>)
    requires Aligned(items, stats) && Aligned(more, moreStats)
    ensures Aligned(items + more, stats + moreStats)
  {
  }

  lemma {:induction false} ReadingsAligned(entries: seq<Entry>, path: string, at: Option<int>)
    ensures Aligned(Readings(entries, path, at), StatsIn(entries, path))
  {
    hide Aligned;
    if entries == [] {
      NothingAligned();
    } else {
      var front, last := entries[..|entries| - 1], entries[|entries| - 1];
      ReadingsAligned(front, path, at);
      OneAligned(last, path, at);
      AlignedConcat(Readings(front, path, at), StatsIn(front, path), ReadingOf(last, path, at),
                    if last.path == path && last.stats.Some? then [last.stats] else []);
    }
  }

  lemma NothingAligned()
    ensures Aligned([], [])
  {
  }

  lemma OneAligned(entry: Entry, path: string, at: Option<int>)
    ensures Aligned(ReadingOf(entry, path, at), if entry.path == path && entry.stats.Some? then [entry.stats] else [])
  {
  }

  lemma {:induction false} TraceAligned(inputs: seq<Input>, path: string)
    ensures Aligned(Trace(inputs, path), StatsRead(inputs, path))
  {
    hide Aligned, Paths, Readings, StatsIn;
    if inputs == [] {
      NothingAligned();
    } else {
      var front, last := inputs[..|inputs| - 1], inputs[|inputs| - 1];
      TraceAligned(front, path);
      GoneAligned();
      ReadingsAligned(last.entries, path, if last.Poll? then Some(last.now) else None);
      AlignedConcat(Trace(front, path), StatsRead(front, path), ItemsOf(last, path), StatsOf(last, path));
    }
  }

  lemma GoneAligned()
    ensures Aligned([Gone], [None])
  {
  }

  /** Of two neighbouring readings of a run, the second, taken by a poll, is a reported
      rise exactly when the counter charged to the cgroup itself is higher: its local
      counter where both have one, whatever happened below it, and the subtree's where
      neither has. */
  lemma RisesOnRawCounters(inputs: seq<Input>, path: string, i: nat)
    requires 0 < i < |StatsRead(inputs, path)| == |Trace(inputs, path)|
    requires StatsRead(inputs, path)[i - 1].Some? && StatsRead(inputs, path)[i].Some?
    ensures var a, b := StatsRead(inputs, path)[i - 1].value, StatsRead(inputs, path)[i].value;
      var items := Trace(inputs, path);
      && items[i].Reading?
      && (items[i].at.Some? ==>
            && (a.hasLocalEvents && b.hasLocalEvents ==> (IsRise(items, i) <==> b.localKills > a.localKills))
            && (!a.hasLocalEvents && !b.hasLocalEvents ==> (IsRise(items, i) <==> b.treeKills > a.treeKills)))
  {
    hide Trace, StatsRead;
    TraceAligned(inputs, path);
  }

  /** The only entry a pass has for its path. */
  predicate OnlyEntry(entries: seq<Entry>, entry: Entry, k: nat) {
    k < |entries| && entries[k] == entry && forall i | 0 <= i < |entries| && i != k :: entries[i].path != entry.path
  }

  lemma {:induction false} OnlyReading(entries: seq<Entry>, entry: Entry, k: nat, at: Option<int>)
    requires OnlyEntry(entries, entry, k) && entry.stats.Some?
    ensures Readings(entries, entry.path, at) == [Reading(entry.stats.value.OOMKills(), at, entry.groupKill)]
  {
    hide MemoryStats.OOMKills;
    var n := |entries| - 1;
    if k < n {
      OnlyReading(entries[..n], entry, k, at);
    } else {
      assert entry.path !in Paths(entries[..n]);
      ReadingsOfAbsent(entries[..n], entry.path, at);
    }
  }

  /** What one more poll reports of a cgroup last read with statistics a and now with
      b: one kill, with the count read, exactly when the counter charged to the cgroup
      itself is higher. What happened below a cgroup with a local counter is not blamed
      on it. */
  lemma PollReportsExactlyWhen(
    inputs: seq<Input>, hasProc: bool, now: int, entries: seq<Entry>, entry: Entry, k: nat, a: MemoryStats)
    requires OnlyEntry(entries, entry, k) && entry.stats.Some?
    requires var read := StatsRead(inputs, entry.path); read != [] && read[|read| - 1] == Some(a)
    ensures var b, path := entry.stats.value, entry.path;
      var before := KillsAt(AllEvents(inputs, hasProc), path);
      var after := KillsAt(AllEvents(inputs + [Poll(now, entries)], hasProc), path);
      && (a.hasLocalEvents && b.hasLocalEvents ==>
            after == before + if b.localKills > a.localKills then [Kill(now, b.localKills, entry.groupKill)] else [])
      && (!a.hasLocalEvents && !b.hasLocalEvents ==>
            after == before + if b.treeKills > a.treeKills then [Kill(now, b.treeKills, entry.groupKill)] else [])
      && (a.hasLocalEvents && !b.hasLocalEvents ==>
            after == before + if b.treeKills > a.localKills then [Kill(now, b.treeKills, entry.groupKill)] else [])
      && (!a.hasLocalEvents && b.hasLocalEvents ==>
            after == before + if b.localKills > a.treeKills then [Kill(now, b.localKills, entry.groupKill)] else [])
  {
    hide KillsAt, AllEvents, Kills, Readings, StatsRead;
    var path, input := entry.path, Poll(now, entries);
    var items := Trace(inputs, path);
    EventsAreRises(inputs, hasProc, path);
    EventsAreRises(inputs + [input], hasProc, path);
    TraceAligned(inputs, path);
    assert (inputs + [input])[..|inputs|] == inputs;
    OnlyReading(entries, entry, k, Some(now));
    assert entries[k].path in Paths(entries);
    KillsSnoc(items, Reading(entry.stats.value.OOMKills(), Some(now), entry.groupKill));
  }

  // ---- a run, life by life ----

  /** The stretches of a trace between disappearances, the last perhaps empty. */
  function Lives(items: seq<Item>): (lives: seq<seq<Item>>)
    ensures |lives| > 0
  {
    if items == [] then [[]]
    else
      var last := items[|items| - 1];
      var lives := Lives(items[..|items| - 1]);
      if last.Gone? then lives + [[]] else lives[..|lives| - 1] + [lives[|lives| - 1] + [last]]
  }

  function Joined(lives: seq<seq<Item>>): seq<Item>
    requires lives != []
  {
    var n := |lives| - 1;
    if n == 0 then lives[0] else Joined(lives[..n]) + [Gone] + lives[n]
  }

  lemma JoinedSnoc(lives: seq<seq<Item>>, life: seq<Item>, item: Item)
    ensures lives != [] ==> Joined(lives + [life]) == Joined(lives) + [Gone] + life
    ensures Joined(lives + [life + [item]]) == Joined(lives + [life]) + [item]
  {
    assert (lives + [life])[..|lives|] == lives && (lives + [life + [item]])[..|lives|] == lives;
    if lives != [] {
      Reassociate(Joined(lives) + [Gone], life, [item]);
    }
  }

  /** The lives are the trace, cut at its disappearances. */
  lemma {:induction false} LivesJoin(items: seq<Item>)
    ensures Joined(Lives(items)) == items
  {
    hide Joined;
    if items == [] {
      JoinedAlone([]);
    } else {
      var front, last := items[..|items| - 1], items[|items| - 1];
      var lives := Lives(front);
      LivesJoin(front);
      assert items == front + [last] && lives == lives[..|lives| - 1] + [lives[|lives| - 1]];
      JoinedSnoc(lives, [], last);
      JoinedSnoc(lives[..|lives| - 1], lives[|lives| - 1], last);
      assert last.Gone? ==> last == Gone && items == front + [Gone] + [];
    }
  }

  lemma JoinedAlone(life: seq<Item>)
    ensures Joined([life]) == life
  {
  }

  /** The strict rises of each life, one life after another. */
  function KillsOfLives(lives: seq<seq<Item>>): seq<Kill> {
    if lives == [] then [] else KillsOfLives(lives[..|lives| - 1]) + Kills(lives[|lives| - 1])
  }

  lemma KillsOfLivesSnoc(lives: seq<seq<Item>>, life: seq<Item>)
    ensures KillsOfLives(lives + [life]) == KillsOfLives(lives) + Kills(life)
  {
    assert (lives + [life])[..|lives|] == lives;
  }

  /** A disappearance cuts a trace: no rise spans it. */
  lemma {:induction false} KillsFallIntoLives(items: seq<Item>)
    ensures Kills(items) == KillsOfLives(Lives(items))
    ensures var lives := Lives(items); LastReading(items) == LastReading(lives[|lives| - 1])
  {
    hide Kills, KillsOfLives, LastReading;
    if items == [] {
      EmptyLife();
    } else {
      var front, last := items[..|items| - 1], items[|items| - 1];
      var lives := Lives(front);
      var done, life := lives[..|lives| - 1], lives[|lives| - 1];
      KillsFallIntoLives(front);
      KillsSnoc(front, last);
      assert items == front + [last] && lives == done + [life];
      if last.Gone? {
        KillsOfLivesSnoc(lives, []);
        EmptyLife();
      } else {
        KillsSnoc(life, last);
        KillsOfLivesSnoc(done, life);
        KillsOfLivesSnoc(done, life + [last]);
        Reassociate(KillsOfLives(done), Kills(life), Kills(life + [last])[|Kills(life)|..]);
      }
    }
  }

  lemma EmptyLife()
    ensures Kills([]) == [] && KillsOfLives([[]]) == [] && LastReading([]) == None
  {
    var empty: seq<seq<Item>> := [[]];
    assert empty[..0] == [];
    assert KillsOfLives([]) == [];
  }

  /** Readings only, all but the first of them announced. */
  predicate Unbroken(life: seq<Item>) {
    (forall i | 0 <= i < |life| :: life[i].Reading?) && (forall i | 0 < i < |life| :: life[i].at.Some?)
  }

  /** Every reading but the first is announced. */
  predicate AnnouncedAfterFirst(items: seq<Item>) {
    forall i | 0 < i < |items| && items[i].Reading? :: items[i].at.Some?
  }

  lemma {:induction false} LivesAreReadings(items: seq<Item>)
    requires AnnouncedAfterFirst(items)
    ensures forall life | life in Lives(items) :: Unbroken(life) && |life| <= |items|
  {
    if items != [] {
      LivesAreReadings(items[..|items| - 1]);
      var lives := Lives(items[..|items| - 1]);
      assert lives[|lives| - 1] in lives;
    }
  }

  /** As the daemon starts a poller: primed once at most, and first, with no path
      discovered twice. */
  predicate StartsPrimed(inputs: seq<Input>, path: string) {
    forall k | 0 <= k < |inputs| && inputs[k].Prime? :: k == 0 && |Readings(inputs[k].entries, path, None)| <= 1
  }

  lemma {:induction false} PollsAnnounce(entries: seq<Entry>, path: string, now: int)
    ensures forall item | item in Readings(entries, path, Some(now)) :: item.Reading? && item.at.Some?
  {
    if entries != [] {
      PollsAnnounce(entries[..|entries| - 1], path, now);
    }
  }

  lemma {:induction false} TraceAnnounces(inputs: seq<Input>, path: string)
    requires StartsPrimed(inputs, path)
    ensures AnnouncedAfterFirst(Trace(inputs, path))
  {
    hide Readings, Paths;
    if inputs != [] {
      var front, last := inputs[..|inputs| - 1], inputs[|inputs| - 1];
      TraceAnnounces(front, path);
      if last.Poll? {
        PollsAnnounce(last.entries, path, last.now);
        var items := ItemsOf(last, path);
        assert forall i | 0 <= i < |items| :: items[i] in items;
      }
    }
  }

  /** No counter falls while its cgroup lives. */
  predicate NeverFalls(life: seq<Item>) {
    forall i, j | 0 <= i < j < |life| && life[i].Reading? && life[j].Reading? :: life[i].kills <= life[j].kills
  }

  /** The reports of a life climb from its first reading to its last, and account for
      every kill between the two once. */
  predicate ToldOnce(life: seq<Item>) {
    life != [] ==>
      && OneLife(life)
      && Climbs(Kills(life), life[0].kills, life[|life| - 1].kills)
      && Accounted(life) == life[|life| - 1].kills - life[0].kills
  }

  /** Over any run, with any rediscoveries: a cgroup's reports fall into those of its
      lives; in each, counts climb from the first reading to the last, and every kill
      between the two is accounted for once. No kill is replayed, within a life or
      from one life in the next. */
  lemma NoKillReplayed(inputs: seq<Input>, hasProc: bool, path: string)
    requires StartsPrimed(inputs, path) && forall life | life in Lives(Trace(inputs, path)) :: NeverFalls(life)
    ensures var lives := Lives(Trace(inputs, path));
      && Joined(lives) == Trace(inputs, path)
      && KillsAt(AllEvents(inputs, hasProc), path) == KillsOfLives(lives)
      && forall life | life in lives :: ToldOnce(life)
  {
    hide Lives, Joined, KillsOfLives, Kills, KillsAt, Trace, AllEvents;
    hide Climbs, Accounted, StartsPrimed, AnnouncedAfterFirst;
    var lives := Lives(Trace(inputs, path));
    EventsAreRises(inputs, hasProc, path);
    LivesJoin(Trace(inputs, path));
    KillsFallIntoLives(Trace(inputs, path));
    TraceAnnounces(inputs, path);
    LivesAreReadings(Trace(inputs, path));
    forall life | life in lives
      ensures ToldOnce(life)
    {
      if life != [] {
        KillCountsIncrease(life);
        RisesTelescope(life);
      }
    }
  }

  /** A pass that discovers the cgroup but cannot read it leaves its trace alone: a
      rise is reported by the next pass that can. */
  lemma FailedReadOnlyDelays(inputs: seq<Input>, now: int, entries: seq<Entry>, path: string)
    requires path in Paths(entries)
    requires forall i | 0 <= i < |entries| && entries[i].path == path :: entries[i].stats == None
    ensures Trace(inputs + [Poll(now, entries)], path) == Trace(inputs, path)
  {
    UnreadIsSilent(entries, path, Some(now));
    assert (inputs + [Poll(now, entries)])[..|inputs|] == inputs;
  }

  lemma {:induction false} UnreadIsSilent(entries: seq<Entry>, path: string, at: Option<int>)
    requires forall i | 0 <= i < |entries| && entries[i].path == path :: entries[i].stats == None
    ensures Readings(entries, path, at) == []
  {
    if entries != [] {
      UnreadIsSilent(entries[..|entries| - 1], path, at);
    }
  }

  // ---- snapshots ----

  /** The newest listing one pass took of a path. */
  function ListingIn(entries: seq<Entry>, path: string): Option<seq<Process>> {
    if entries == [] then None
    else
      var last := entries[|entries| - 1];
      if last.path == path && last.listing.Some? then last.listing else ListingIn(entries[..|entries| - 1], path)
  }

  /** The processes last listed for a path, unless a poll has since missed it while
      its counter was known. */
  function SnapshotOf(inputs: seq<Input>, path: string): Option<map<int, Process>> {
    if inputs == [] then None
    else
      var front, last := inputs[..|inputs| - 1], inputs[|inputs| - 1];
      if last.Poll? && path !in Paths(last.entries) && LastReading(Trace(front, path)).Some? then None
      else
        match ListingIn(last.entries, path)
        case Some(listing) => Some(ByPid(listing))
        case None => SnapshotOf(front, path)
  }

  lemma {:induction false} RefreshIsPerPath(
    snapshots: map<string, map<int, Process>>, entries: seq<Entry>, path: string)
    ensures Get(Refresh(snapshots, entries), path) ==
            match ListingIn(entries, path)
            case Some(listing) => Some(ByPid(listing))
            case None => Get(snapshots, path)
  {
    if entries != [] {
      RefreshIsPerPath(snapshots, entries[..|entries| - 1], path);
    }
  }

  lemma {:induction false} BaselineOfAbsent(counters: map<string, u64>, entries: seq<Entry>, path: string)
    requires path !in Paths(entries)
    ensures Get(Baseline(counters, entries), path) == Get(counters, path)
    ensures ListingIn(entries, path) == None
  {
    if entries != [] {
      var front := entries[..|entries| - 1];
      assert path !in Paths(front) by {
        assert forall i | 0 <= i < |front| :: front[i] == entries[i];
      }
      BaselineOfAbsent(counters, front, path);
      assert entries[|entries| - 1].path != path;
    }
  }

  /** Over any run, the snapshot held for a path is the one its own history gives. */
  lemma {:induction false} SnapshotsAreTraced(inputs: seq<Input>, path: string)
    ensures Get(Run(inputs, true).snapshots, path) == SnapshotOf(inputs, path)
  {
    hide Refresh, Baseline, ListingIn, Paths, LastReading, Trace;
    if inputs != [] {
      var front, last := inputs[..|inputs| - 1], inputs[|inputs| - 1];
      var st := Run(front, true);
      SnapshotsAreTraced(front, path);
      EventsAreRises(front, true, path);
      RefreshIsPerPath(st.snapshots, last.entries, path);
      if path !in Paths(last.entries) {
        BaselineOfAbsent(st.counters, last.entries, path);
      }
    }
  }

  /** A snapshot outlives its cgroup exactly when the cgroup's statistics had not
      been read in its last life: eviction walks the counters only. */
  lemma SnapshotSurvivesExactlyWhen(inputs: seq<Input>, now: int, entries: seq<Entry>, path: string)
    requires path !in Paths(entries)
    requires path in Run(inputs, true).snapshots
    ensures path in Run(inputs + [Poll(now, entries)], true).snapshots <==> LastReading(Trace(inputs, path)) == None
  {
    hide Run, LastReading, Trace, Paths;
    var longer := inputs + [Poll(now, entries)];
    assert longer[..|inputs|] == inputs;
    SnapshotsAreTraced(inputs, path);
    SnapshotsAreTraced(longer, path);
    BaselineOfAbsent(map[], entries, path);
  }

  /** So it can happen: a cgroup listed but never parsed, then gone. */
  lemma UnparsedSnapshotLeaks(path: string, p: Process)
    ensures var inputs := [Poll(0, [Entry(path, None, None, None, Some([p]))]), Poll(1, [])];
      path in Run(inputs, true).snapshots
  {
    var entry := Entry(path, None, None, None, Some([p]));
    var first := [Poll(0, [entry])];
    var inputs := first + [Poll(1, [])];
    assert inputs == [Poll(0, [entry]), Poll(1, [])];
    assert first[..0] == [] && [entry][..0] == [];
    assert [entry][0].path in Paths([entry]);
    SnapshotsAreTraced(first, path);
    assert ListingIn([entry], path) == Some([p]);
    FailedReadOnlyDelays([], 0, [entry], path);
    assert [] + [Poll(0, [entry])] == first;
    SnapshotSurvivesExactlyWhen(first, 1, [], path);
  }

  // ---- victims ----

  /** Some pass of the run listed the process for this path. */
  ghost predicate Listed(inputs: seq<Input>, path: string, p: Process) {
    exists k, i | 0 <= k < |inputs| && 0 <= i < |inputs[k].entries| ::
      inputs[k].entries[i].path == path && inputs[k].entries[i].listing.Some? && p in inputs[k].entries[i].listing.value
  }

  lemma {:induction false} ListingIsListed(entries: seq<Entry>, path: string)
    requires ListingIn(entries, path).Some?
    ensures exists i | 0 <= i < |entries| :: entries[i].path == path && entries[i].listing == ListingIn(entries, path)
  {
    var n := |entries| - 1;
    if !(entries[n].path == path && entries[n].listing.Some?) {
      ListingIsListed(entries[..n], path);
      var i :| 0 <= i < n && entries[..n][i].path == path && entries[..n][i].listing == ListingIn(entries[..n], path);
      assert entries[i] == entries[..n][i];
    }
  }

  lemma {:induction false} SnapshotsWereListed(inputs: seq<Input>, path: string)
    ensures SnapshotOf(inputs, path).Some? ==>
      && KeyedByPid(SnapshotOf(inputs, path).value)
      && forall pid | pid in SnapshotOf(inputs, path).value :: Listed(inputs, path, SnapshotOf(inputs, path).value[pid])
  {
    hide ListingIn, Paths, LastReading, Trace;
    if inputs != [] && SnapshotOf(inputs, path).Some? {
      var n := |inputs| - 1;
      SnapshotsWereListed(inputs[..n], path);
      var snapshot := SnapshotOf(inputs, path).value;
      if ListingIn(inputs[n].entries, path).Some? {
        ListingIsListed(inputs[n].entries, path);
        var i :| 0 <= i < |inputs[n].entries| && inputs[n].entries[i].path == path
                 && inputs[n].entries[i].listing == ListingIn(inputs[n].entries, path);
        forall pid | pid in snapshot
          ensures Listed(inputs, path, snapshot[pid])
        {
          assert snapshot[pid] in inputs[n].entries[i].listing.value;
        }
      } else {
        forall pid | pid in snapshot
          ensures Listed(inputs, path, snapshot[pid])
        {
          ListedLater(inputs, path, snapshot[pid]);
        }
      }
    }
  }

  lemma ListedLater(inputs: seq<Input>, path: string, p: Process)
    requires inputs != [] && Listed(inputs[..|inputs| - 1], path, p)
    ensures Listed(inputs, path, p)
  {
    var front := inputs[..|inputs| - 1];
    var k, i :| 0 <= k < |front| && 0 <= i < |front[k].entries|
      && front[k].entries[i].path == path
      && front[k].entries[i].listing.Some? && p in front[k].entries[i].listing.value;
    assert inputs[k] == front[k];
  }

  lemma {:induction false} DetectedFromEntry(
    counters: map<string, u64>, snapshots: map<string, map<int, Process>>, entries: seq<Entry>, now: int, hasProc: bool,
    event: KillEvent)
    requires event in Detect(counters, snapshots, entries, now, hasProc)
    ensures exists i | 0 <= i < |entries| ::
              entries[i].stats.Some? && event == EventOf(entries[i], snapshots, now, hasProc)
  {
    hide Inferred;
    var n := |entries| - 1;
    var earlier := Detect(counters, snapshots, entries[..n], now, hasProc);
    if event in earlier {
      DetectedFromEntry(counters, snapshots, entries[..n], now, hasProc, event);
      var i :| 0 <= i < n && entries[..n][i].stats.Some? && event == EventOf(entries[..n][i], snapshots, now, hasProc);
      assert entries[i] == entries[..n][i];
    } else {
      assert event == EventOf(entries[n], snapshots, now, hasProc);
    }
  }

  /** The entry that raised an event: its path and value, and the victim deduced
      from the path's earlier snapshot and this entry's survivors. */
  ghost predicate Explains(inputs: seq<Input>, entry: Entry, event: KillEvent) {
    && entry.path == event.cgroupPath
    && entry.stats.Some? && entry.stats.value.OOMKills() == event.killCount
    && entry.groupKill == event.groupKill
    && match (SnapshotOf(inputs, entry.path), entry.survivors)
       case (Some(snapshot), Some(survivors)) => IsInferred(event.victim, snapshot, set pid | pid in survivors)
       case _ => event.victim == NO_VICTIM
  }

  /** Every event of a poll is explained by one of its entries and by earlier passes. */
  lemma EventsAreExplained(inputs: seq<Input>, now: int, entries: seq<Entry>, event: KillEvent)
    requires event in EventsOf(Run(inputs, true), Poll(now, entries), true)
    ensures event.time == now && event.source == PollerSource
    ensures exists i | 0 <= i < |entries| :: Explains(inputs, entries[i], event)
  {
    hide Detect, SnapshotOf, Run, IsInferred;
    var st, path := Run(inputs, true), event.cgroupPath;
    DetectedFromEntry(st.counters, st.snapshots, entries, now, true, event);
    var i :| 0 <= i < |entries| && entries[i].stats.Some? && event == EventOf(entries[i], st.snapshots, now, true);
    SnapshotsAreTraced(inputs, path);
    SnapshotsWereListed(inputs, path);
    assert Explains(inputs, entries[i], event);
  }

  /** A named victim was listed for that very cgroup by an earlier pass, has left it,
      and was heavier than (or as heavy as, with a lower PID than) all who left. */
  lemma NamedVictimWasSeen(inputs: seq<Input>, entry: Entry, event: KillEvent)
    requires Explains(inputs, entry, event) && event.victim.known
    ensures entry.survivors.Some? && SnapshotOf(inputs, event.cgroupPath).Some?
    ensures exists p ::
      && Listed(inputs, event.cgroupPath, p)
      && p.pid !in entry.survivors.value
      && IsHeaviest(p, Missing(SnapshotOf(inputs, event.cgroupPath).value, set pid | pid in entry.survivors.value))
      && event.victim == VictimFromProcess(p)
  {
    hide SnapshotOf, Listed, IsHeaviest;
    var path := event.cgroupPath;
    SnapshotsWereListed(inputs, path);
    var snapshot, alive := SnapshotOf(inputs, path).value, set pid | pid in entry.survivors.value;
    var p :| IsHeaviest(p, Missing(snapshot, alive)) && event.victim == VictimFromProcess(p);
    HeaviestIsMissing(p, snapshot, alive);
  }

  lemma HeaviestIsMissing(p: Process, snapshot: map<int, Process>, alive: set<int>)
    requires KeyedByPid(snapshot) && IsHeaviest(p, Missing(snapshot, alive))
    ensures p.pid in snapshot && snapshot[p.pid] == p && p.pid !in alive
  {
  }

  lemma {:induction false} EventFromPoll(inputs: seq<Input>, hasProc: bool, event: KillEvent) returns (k: nat)
    requires event in AllEvents(inputs, hasProc)
    ensures k < |inputs| && inputs[k].Poll? && event in EventsOf(Run(inputs[..k], hasProc), inputs[k], hasProc)
  {
    hide Run, Detect;
    var front := inputs[..|inputs| - 1];
    if event in AllEvents(front, hasProc) {
      k := EventFromPoll(front, hasProc, event);
      assert front[..k] == inputs[..k] && front[k] == inputs[k];
    } else {
      k := |front|;
    }
  }

  /** Without process listings nobody is named. */
  lemma NobodyNamed(st: State, now: int, entries: seq<Entry>, event: KillEvent)
    requires event in EventsOf(st, Poll(now, entries), false)
    ensures !event.victim.known
  {
    hide Detect;
    DetectedFromEntry(st.counters, st.snapshots, entries, now, false, event);
  }

  /** The k-th pass raised the event, and names for it a process that an earlier pass
      listed for the same cgroup, that has left it since, and that is the heaviest of
      those who left. */
  ghost predicate SeenAt(inputs: seq<Input>, k: nat, survivors: seq<int>, p: Process, event: KillEvent) {
    && k < |inputs| && inputs[k].Poll? && inputs[k].now == event.time
    && (exists i | 0 <= i < |inputs[k].entries| ::
          inputs[k].entries[i].path == event.cgroupPath && inputs[k].entries[i].survivors == Some(survivors))
    && event.victim == VictimFromProcess(p)
    && Listed(inputs[..k], event.cgroupPath, p)
    && p.pid !in survivors
    && SnapshotOf(inputs[..k], event.cgroupPath).Some?
    && HeaviestGone(event.victim, SnapshotOf(inputs[..k], event.cgroupPath).value, survivors)
  }

  /** Over any run, every victim an event names was seen alive in its cgroup before. */
  lemma KnownVictimsWereSeen(inputs: seq<Input>, hasProc: bool, event: KillEvent)
    requires event in AllEvents(inputs, hasProc) && event.victim.known
    ensures hasProc
    ensures exists k, survivors, p :: SeenAt(inputs, k, survivors, p, event)
  {
    hide AllEvents, EventsOf, Run, Listed, IsHeaviest, SnapshotOf, HeaviestGone, KeyedByPid;
    var k := EventFromPoll(inputs, hasProc, event);
    var now, entries := inputs[k].now, inputs[k].entries;
    assert inputs[k] == Poll(now, entries);
    if !hasProc {
      NobodyNamed(Run(inputs[..k], hasProc), now, entries, event);
    }
    EventsAreExplained(inputs[..k], now, entries, event);
    var i :| 0 <= i < |entries| && Explains(inputs[..k], entries[i], event);
    NamedVictimWasSeen(inputs[..k], entries[i], event);
    var survivors := entries[i].survivors.value;
    var p :| Listed(inputs[..k], event.cgroupPath, p) && p.pid !in survivors
      && event.victim == VictimFromProcess(p);
    SnapshotsWereListed(inputs[..k], event.cgroupPath);
    InferredIsHeaviestGone(event.victim, SnapshotOf(inputs[..k], event.cgroupPath).value, survivors);
    assert SeenAt(inputs, k, survivors, p, event);
  }
}
