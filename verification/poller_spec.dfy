/** What the polling detector reports, as a function of what it read: the step it
    takes, and each cgroup's events read off that cgroup's own trace. */
module PollerSpec {
  import opened Common
  import opened CgroupStats
  import opened Detection
  import opened VictimInference

  /** One discovered path and what the reads of it gave; any of them may fail. */
  datatype Entry = Entry(
    path: string,
    stats: Option<MemoryStats>,
    survivors: Option<seq<int>>,
    groupKill: Option<bool>,
    listing: Option<seq<Process>>)

  datatype Input =
    | Prime(entries: seq<Entry>)
    | Poll(now: int, entries: seq<Entry>)

  datatype State = State(counters: map<string, u64>, snapshots: map<string, map<int, Process>>)

  function Get<V>(m: map<string, V>, path: string): Option<V> {
    if path in m then Some(m[path]) else None
  }

  // ---- one pass ----

  function Paths(entries: seq<Entry>): set<string> {
    set i | 0 <= i < |entries| :: entries[i].path
  }

  function Note(counters: map<string, u64>, entry: Entry): map<string, u64> {
    if entry.stats.Some? then counters[entry.path := entry.stats.value.OOMKills()] else counters
  }

  function Baseline(counters: map<string, u64>, entries: seq<Entry>): map<string, u64> {
    if entries == [] then counters
    else Note(Baseline(counters, entries[..|entries| - 1]), entries[|entries| - 1])
  }

  ghost function EventOf(entry: Entry, snapshots: map<string, map<int, Process>>, now: int, hasProc: bool): KillEvent
    requires entry.stats.Some?
  {
    KillEvent(now, entry.path, Inferred(Get(snapshots, entry.path), entry.survivors, hasProc),
              entry.stats.value.OOMKills(), entry.groupKill, PollerSource)
  }

  /** An entry raises an event when its counter was known and has risen. */
  predicate Rises(counters: map<string, u64>, entry: Entry) {
    entry.stats.Some? && entry.path in counters && entry.stats.value.OOMKills() > counters[entry.path]
  }

  ghost function DetectOne(
    counters: map<string, u64>, snapshots: map<string, map<int, Process>>, entry: Entry, now: int, hasProc: bool)
    : seq<KillEvent>
  {
    if Rises(counters, entry) then [EventOf(entry, snapshots, now, hasProc)] else []
  }

  ghost function Detect(
    counters: map<string, u64>, snapshots: map<string, map<int, Process>>, entries: seq<Entry>, now: int, hasProc: bool)
    : seq<KillEvent>
  {
    if entries == [] then []
    else
      var front, last := entries[..|entries| - 1], entries[|entries| - 1];
      Detect(counters, snapshots, front, now, hasProc)
      + DetectOne(Baseline(counters, front), snapshots, last, now, hasProc)
  }

  function Refresh(snapshots: map<string, map<int, Process>>, entries: seq<Entry>): map<string, map<int, Process>> {
    if entries == [] then snapshots
    else
      var last := entries[|entries| - 1];
      var earlier := Refresh(snapshots, entries[..|entries| - 1]);
      if last.listing.Some? then earlier[last.path := ByPid(last.listing.value)] else earlier
  }

  function EvictCounters(counters: map<string, u64>, live: set<string>): map<string, u64> {
    map path | path in counters && path in live :: counters[path]
  }

  /** Only a path that has a counter loses its snapshot. */
  function EvictSnapshots(
    snapshots: map<string, map<int, Process>>, counters: map<string, u64>, live: set<string>)
    : map<string, map<int, Process>>
  {
    map path | path in snapshots && (path in live || path !in counters) :: snapshots[path]
  }

  ghost function EventsOf(st: State, input: Input, hasProc: bool): seq<KillEvent> {
    match input
    case Prime(_) => []
    case Poll(now, entries) => Detect(st.counters, st.snapshots, entries, now, hasProc)
  }

  /** What reaches the channel when the context is cancelled after that many sends. */
  function Published(events: seq<KillEvent>, sends: nat): (sent: seq<KillEvent>)
    ensures sent <= events
    ensures |sent| == sends || (|sent| < sends && sent == events)
  {
    if sends < |events| then events[..sends] else events
  }

  function Step(st: State, input: Input, hasProc: bool): State {
    var counters := Baseline(st.counters, input.entries);
    var snapshots := if hasProc then Refresh(st.snapshots, input.entries) else st.snapshots;
    match input
    case Prime(_) => State(counters, snapshots)
    case Poll(_, entries) =>
      State(EvictCounters(counters, Paths(entries)), EvictSnapshots(snapshots, counters, Paths(entries)))
  }

  function Run(inputs: seq<Input>, hasProc: bool): State {
    if inputs == [] then State(map[], map[])
    else Step(Run(inputs[..|inputs| - 1], hasProc), inputs[|inputs| - 1], hasProc)
  }

  ghost function AllEvents(inputs: seq<Input>, hasProc: bool): seq<KillEvent> {
    if inputs == [] then []
    else
      var front := inputs[..|inputs| - 1];
      AllEvents(front, hasProc) + EventsOf(Run(front, hasProc), inputs[|inputs| - 1], hasProc)
  }

  // ---- one cgroup's trace ----

  /** What one cgroup shows over time: counter values read, each silently (while
      priming) or announced at an instant, and disappearances from discovery. */
  datatype Item =
    | Reading(kills: u64, at: Option<int>, groupKill: Option<bool>)
    | Gone

  function ReadingOf(entry: Entry, path: string, at: Option<int>): seq<Item> {
    if entry.path == path && entry.stats.Some? then [Reading(entry.stats.value.OOMKills(), at, entry.groupKill)] else []
  }

  function Readings(entries: seq<Entry>, path: string, at: Option<int>): seq<Item> {
    if entries == [] then []
    else Readings(entries[..|entries| - 1], path, at) + ReadingOf(entries[|entries| - 1], path, at)
  }

  function ItemsOf(input: Input, path: string): seq<Item> {
    match input
    case Prime(entries) => Readings(entries, path, None)
    case Poll(now, entries) => if path in Paths(entries) then Readings(entries, path, Some(now)) else [Gone]
  }

  function Trace(inputs: seq<Input>, path: string): seq<Item> {
    if inputs == [] then [] else Trace(inputs[..|inputs| - 1], path) + ItemsOf(inputs[|inputs| - 1], path)
  }

  /** A kill report, less the victim. */
  datatype Kill = Kill(time: int, killCount: u64, groupKill: Option<bool>)

  /** Two neighbouring readings, the second announced and strictly higher. */
  predicate IsRise(items: seq<Item>, i: int) {
    && 0 < i < |items|
    && items[i - 1].Reading? && items[i].Reading?
    && items[i].at.Some? && items[i].kills > items[i - 1].kills
  }

  /** The strict rises of a trace, oldest first, each with the value read. */
  function Kills(items: seq<Item>): seq<Kill> {
    if items == [] then []
    else
      var n := |items| - 1;
      Kills(items[..n])
      + if IsRise(items, n) then [Kill(items[n].at.value, items[n].kills, items[n].groupKill)] else []
  }

  /** The value a later reading is compared with: the last item, if a reading. */
  function LastReading(items: seq<Item>): Option<u64> {
    if items == [] || items[|items| - 1].Gone? then None else Some(items[|items| - 1].kills)
  }

  function KillsAt(events: seq<KillEvent>, path: string): seq<Kill> {
    if events == [] then []
    else
      var last := events[|events| - 1];
      KillsAt(events[..|events| - 1], path)
      + if last.cgroupPath == path then [Kill(last.time, last.killCount, last.groupKill)] else []
  }

  // ---- the run's events are the rises of the traces ----

  lemma {:induction false} KillsAtConcat(a: seq<KillEvent>, b: seq<KillEvent>, path: string)
    ensures KillsAt(a + b, path) == KillsAt(a, path) + KillsAt(b, path)
  {
    if b == [] {
      assert a + b == a;
    } else {
      var front, last := b[..|b| - 1], b[|b| - 1];
      KillsAtConcat(a, front, path);
      assert (a + b)[..|a + b| - 1] == a + front && (a + b)[|a + b| - 1] == last;
    }
  }

  /** Appending an item adds at most its own rise. */
  lemma KillsSnoc(items: seq<Item>, item: Item)
    ensures Kills(items + [item]) == Kills(items) +
      if item.Reading? && item.at.Some? && LastReading(items).Some? && item.kills > LastReading(items).value
      then [Kill(item.at.value, item.kills, item.groupKill)] else []
    ensures LastReading(items + [item]) == if item.Gone? then None else Some(item.kills)
  {
    assert (items + [item])[..|items|] == items;
  }

  /** Within one pass, one entry, seen from one cgroup. */
  lemma EntryIsPerPath(
    counters: map<string, u64>, snapshots: map<string, map<int, Process>>, entry: Entry, now: int, hasProc: bool,
    path: string, items: seq<Item>)
    requires Get(counters, path) == LastReading(items)
    ensures var after := items + ReadingOf(entry, path, Some(now));
      && Get(Note(counters, entry), path) == LastReading(after)
      && Kills(items) + KillsAt(DetectOne(counters, snapshots, entry, now, hasProc), path) == Kills(after)
  {
    hide Inferred, Kills, LastReading;
    var kills := Kills(items);
    assert items + [] == items && kills + [] == kills;
    if entry.stats.Some? {
      KillsSnoc(items, Reading(entry.stats.value.OOMKills(), Some(now), entry.groupKill));
    }
    if Rises(counters, entry) {
      KillsAtOne(EventOf(entry, snapshots, now, hasProc), path);
    }
  }

  /** Within one pass, seen from one cgroup. */
  lemma {:induction false} PassIsPerPath(
    st: State, entries: seq<Entry>, now: int, hasProc: bool, path: string, before: seq<Item>)
    requires Get(st.counters, path) == LastReading(before)
    ensures Get(Baseline(st.counters, entries), path) == LastReading(before + Readings(entries, path, Some(now)))
    ensures Kills(before) + KillsAt(Detect(st.counters, st.snapshots, entries, now, hasProc), path)
         == Kills(before + Readings(entries, path, Some(now)))
  {
    hide Kills, LastReading, Note, DetectOne, ReadingOf, KillsAt, Get;
    if entries == [] {
      NoKills(path);
      assert before + [] == before && Kills(before) + [] == Kills(before);
    } else {
      var front, last := entries[..|entries| - 1], entries[|entries| - 1];
      PassIsPerPath(st, front, now, hasProc, path, before);
      var items := before + Readings(front, path, Some(now));
      var counters := Baseline(st.counters, front);
      EntryIsPerPath(counters, st.snapshots, last, now, hasProc, path, items);
      assert before + Readings(entries, path, Some(now)) == items + ReadingOf(last, path, Some(now));
      var events := Detect(st.counters, st.snapshots, front, now, hasProc);
      var one := DetectOne(counters, st.snapshots, last, now, hasProc);
      KillsAtConcat(events, one, path);
      var earlier, a, b := Kills(before), KillsAt(events, path), KillsAt(one, path);
      assert earlier + (a + b) == earlier + a + b;
    }
  }

  lemma NoKills(path: string)
    ensures KillsAt([], path) == []
  {
  }

  lemma KillsAtOne(event: KillEvent, path: string)
    ensures KillsAt([event], path) ==
            if event.cgroupPath == path then [Kill(event.time, event.killCount, event.groupKill)] else []
  {
    assert KillsAt([event][..0], path) == [];
  }

  /** Priming reads silently. */
  lemma {:induction false} PrimeIsPerPath(
    counters: map<string, u64>, entries: seq<Entry>, path: string, before: seq<Item>)
    requires Get(counters, path) == LastReading(before)
    ensures Get(Baseline(counters, entries), path) == LastReading(before + Readings(entries, path, None))
    ensures Kills(before) == Kills(before + Readings(entries, path, None))
  {
    hide Kills, LastReading;
    if entries == [] {
      assert before + [] == before;
    } else {
      var front, last := entries[..|entries| - 1], entries[|entries| - 1];
      PrimeIsPerPath(counters, front, path, before);
      var items := before + Readings(front, path, None);
      assert before + Readings(entries, path, None) == items + ReadingOf(last, path, None);
      assert items + [] == items && Kills(items) + [] == Kills(items);
      if last.stats.Some? {
        KillsSnoc(items, Reading(last.stats.value.OOMKills(), None, last.groupKill));
      }
    }
  }

  lemma {:induction false} ReadingsOfAbsent(entries: seq<Entry>, path: string, at: Option<int>)
    requires path !in Paths(entries)
    ensures Readings(entries, path, at) == []
  {
    if entries != [] {
      var front := entries[..|entries| - 1];
      assert path !in Paths(front) by {
        assert forall i | 0 <= i < |front| :: front[i] == entries[i];
      }
      ReadingsOfAbsent(front, path, at);
      assert entries[|entries| - 1].path != path;
    }
  }

  /** Over any run of primes and polls, with arbitrary discoveries and failed reads:
      a cgroup's events are exactly the strict rises between neighbouring readings
      of its trace, each carrying the value read; and the value kept for comparison
      is the trace's last reading. */
  lemma {:induction false} EventsAreRises(inputs: seq<Input>, hasProc: bool, path: string)
    ensures Get(Run(inputs, hasProc).counters, path) == LastReading(Trace(inputs, path))
    ensures KillsAt(AllEvents(inputs, hasProc), path) == Kills(Trace(inputs, path))
  {
    hide Kills, LastReading, KillsAt, Baseline, Detect, Readings, Paths, Refresh, Inferred;
    if inputs == [] {
      EmptyTrace(path);
    } else {
      var front, last := inputs[..|inputs| - 1], inputs[|inputs| - 1];
      var st, items := Run(front, hasProc), Trace(front, path);
      EventsAreRises(front, hasProc, path);
      KillsAtConcat(AllEvents(front, hasProc), EventsOf(st, last, hasProc), path);
      match last
      case Prime(entries) =>
        NoKills(path);
        PrimeIsPerPath(st.counters, entries, path, items);
        assert AllEvents(front, hasProc) + [] == AllEvents(front, hasProc);
      case Poll(now, entries) =>
        PassIsPerPath(st, entries, now, hasProc, path, items);
        if path !in Paths(entries) {
          ReadingsOfAbsent(entries, path, Some(now));
          assert items + [] == items;
          KillsSnoc(items, Gone);
          assert Kills(items) + [] == Kills(items);
        }
    }
  }

  lemma EmptyTrace(path: string)
    ensures KillsAt([], path) == [] && Kills([]) == [] && LastReading([]) == None
  {
  }
}
