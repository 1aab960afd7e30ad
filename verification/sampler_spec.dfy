/** What the sampler retains, as a function of its passes: the step it takes, and
    an account of the whole run that mentions no stored state at all. */
module SamplerSpec {
  import opened Common
  import opened CgroupStats

  /** One discovered path and what reading it gave; a reading may fail. */
  datatype Read = Read(path: string, reading: Option<(MemoryStats, real)>)

  /** One collection pass over the hierarchy. */
  datatype Pass = Pass(now: int, readings: seq<Read>)

  datatype Config = Config(historySize: nat, retention: int)

  predicate ValidConfig(cfg: Config) {
    cfg.historySize > 0 && 0 < cfg.retention <= MAX_DURATION
  }

  datatype State = State(history: map<string, seq<Sample>>, vanishedAt: map<string, int>)

  // ---- one pass ----

  function SampleOf(read: Read, now: int): Sample
    requires read.reading.Some?
  {
    Sample(now, read.reading.value.0, read.reading.value.1)
  }

  function Record(history: map<string, seq<Sample>>, path: string, s: Sample, size: nat): map<string, seq<Sample>> {
    history[path := LastN((if path in history then history[path] else []) + [s], size)]
  }

  /** A newly allocated ring is an empty history. */
  lemma RecordIntoEmpty(history: map<string, seq<Sample>>, path: string, s: Sample, size: nat)
    requires path !in history
    ensures Record(history[path := []], path, s, size) == Record(history, path, s, size)
  {
  }

  function RecordAll(history: map<string, seq<Sample>>, readings: seq<Read>, now: int, size: nat)
    : map<string, seq<Sample>>
  {
    if readings == [] then history
    else
      var last := readings[|readings| - 1];
      var earlier := RecordAll(history, readings[..|readings| - 1], now, size);
      if last.reading.Some? then Record(earlier, last.path, SampleOf(last, now), size) else earlier
  }

  /** The paths a pass read successfully. */
  function Live(readings: seq<Read>): set<string> {
    set i | 0 <= i < |readings| && readings[i].reading.Some? :: readings[i].path
  }

  /** The untracked-from-now-on paths: missed before, and missed long enough. */
  predicate Expired(st: State, path: string, live: set<string>, now: int, retention: int) {
    path !in live && path in st.vanishedAt && TimeSub(now, st.vanishedAt[path]) >= retention
  }

  function Evict(st: State, live: set<string>, now: int, retention: int): State {
    var kept := map path | path in st.history && !Expired(st, path, live, now, retention) :: st.history[path];
    State(kept, map path | path in kept && path !in live :: if path in st.vanishedAt then st.vanishedAt[path] else now)
  }

  /** What the eviction loop leaves, key by key, is the eviction step. */
  lemma VisitedIsEvict(
    st: State, history: map<string, seq<Sample>>, vanishedAt: map<string, int>, live: set<string>,
    now: int, retention: int)
    requires history.Keys <= st.history.Keys
    requires forall p | p in st.history :: p in history <==> !Expired(st, p, live, now, retention)
    requires forall p | p in history :: history[p] == st.history[p]
    requires vanishedAt.Keys <= history.Keys
    requires forall p | p in history :: p in vanishedAt <==> p !in live
    requires forall p | p in vanishedAt :: vanishedAt[p] == if p in st.vanishedAt then st.vanishedAt[p] else now
    ensures State(history, vanishedAt) == Evict(st, live, now, retention)
  {
    hide Expired;
    MapsEqual(history, Evict(st, live, now, retention).history);
    MapsEqual(vanishedAt, Evict(st, live, now, retention).vanishedAt);
  }

  function Step(st: State, pass: Pass, cfg: Config): State {
    var recorded := RecordAll(st.history, pass.readings, pass.now, cfg.historySize);
    Evict(State(recorded, st.vanishedAt), Live(pass.readings), pass.now, cfg.retention)
  }

  function Run(passes: seq<Pass>, cfg: Config): State {
    if passes == [] then State(map[], map[]) else Step(Run(passes[..|passes| - 1], cfg), passes[|passes| - 1], cfg)
  }

  // ---- the whole run, without state ----

  predicate Saw(pass: Pass, path: string) {
    path in Live(pass.readings)
  }

  /** Where the unbroken run of passes that missed the path begins; the number of
      passes when the last one saw it. */
  function MissedFrom(passes: seq<Pass>, path: string): (f: nat)
    ensures f <= |passes|
    ensures forall d | f <= d < |passes| :: !Saw(passes[d], path)
    ensures f > 0 ==> Saw(passes[f - 1], path)
  {
    if passes == [] || Saw(passes[|passes| - 1], path) then |passes|
    else MissedFrom(passes[..|passes| - 1], path)
  }

  /** The path was seen, and no later pass came a full retention window after the
      first that missed it. */
  predicate Retained(passes: seq<Pass>, path: string, retention: int) {
    var f := MissedFrom(passes, path);
    f > 0 && forall d | f < d < |passes| :: passes[d].now - passes[f].now < retention
  }

  /** The samples one pass took of a path. */
  function SamplesIn(readings: seq<Read>, path: string, now: int): seq<Sample> {
    if readings == [] then []
    else
      var last := readings[|readings| - 1];
      SamplesIn(readings[..|readings| - 1], path, now)
      + if last.path == path && last.reading.Some? then [SampleOf(last, now)] else []
  }

  /** Every sample taken of a path since it was last forgotten. */
  function Recorded(passes: seq<Pass>, path: string, retention: int): seq<Sample> {
    if passes == [] || !Retained(passes, path, retention) then []
    else
      var last := passes[|passes| - 1];
      Recorded(passes[..|passes| - 1], path, retention) + SamplesIn(last.readings, path, last.now)
  }

  // ---- the run does what that account says ----

  lemma {:induction false} RecordAllIsPerPath(
    history: map<string, seq<Sample>>, readings: seq<Read>, now: int, size: nat, path: string)
    requires path in history ==> |history[path]| <= size
    ensures var after, taken := RecordAll(history, readings, now, size), SamplesIn(readings, path, now);
      && (path in Live(readings) <==> taken != [])
      && (path in after <==> path in history || taken != [])
      && (path in after ==> after[path] == LastN((if path in history then history[path] else []) + taken, size))
  {
    hide LastN, Live;
    if readings != [] {
      var front, last := readings[..|readings| - 1], readings[|readings| - 1];
      RecordAllIsPerPath(history, front, now, size, path);
      var base := if path in history then history[path] else [];
      LiveSnoc(front, last);
      assert front + [last] == readings;
      var taken := SamplesIn(front, path, now);
      if last.path != path || last.reading == None {
        assert taken + [] == taken;
        assert SamplesIn(readings, path, now) == taken;
      } else {
        RecordOnto(base, taken, SampleOf(last, now), size);
      }
    } else {
      LiveEmpty();
      assert path in history ==> history[path] + [] == history[path];
      LastNShort(if path in history then history[path] else [], size);
    }
  }

  lemma LiveEmpty()
    ensures Live([]) == {}
  {
  }

  lemma LastNShort(s: seq<Sample>, size: nat)
    requires |s| <= size
    ensures LastN(s, size) == s
  {
  }

  lemma RecordOnto(base: seq<Sample>, taken: seq<Sample>, s: Sample, size: nat)
    requires |base| <= size
    ensures LastN(LastN(base + taken, size) + [s], size) == LastN(base + (taken + [s]), size)
    ensures taken == [] ==> LastN(base + taken, size) == base
  {
    LastNAppend(base + taken, [s], size);
    assert base + (taken + [s]) == base + taken + [s];
    assert taken == [] ==> base + taken == base;
  }

  lemma LiveSnoc(front: seq<Read>, last: Read)
    ensures Live(front + [last]) == Live(front) + (if last.reading.Some? then {last.path} else {})
  {
    var readings := front + [last];
    forall p | p in Live(front)
      ensures p in Live(readings)
    {
      var i :| 0 <= i < |front| && front[i].reading.Some? && front[i].path == p;
      assert readings[i] == front[i];
    }
    assert readings[|front|] == last;
  }

  /** One pass, seen from one path. */
  lemma StepIsPerPath(st: State, pass: Pass, cfg: Config, path: string)
    requires path in st.history ==> |st.history[path]| <= cfg.historySize
    ensures var next, taken := Step(st, pass, cfg), SamplesIn(pass.readings, path, pass.now);
      && (Saw(pass, path) <==> taken != [])
      && (path in next.history <==>
            Saw(pass, path) || (path in st.history && !Expired(st, path, Live(pass.readings), pass.now, cfg.retention)))
      && (path in next.history ==>
            next.history[path] == LastN((if path in st.history then st.history[path] else []) + taken, cfg.historySize))
      && (path in next.vanishedAt <==> path in next.history && !Saw(pass, path))
      && (path in next.vanishedAt ==>
            next.vanishedAt[path] == if path in st.vanishedAt then st.vanishedAt[path] else pass.now)
  {
    hide LastN, RecordAll, SamplesIn, Live, TimeSub;
    RecordAllIsPerPath(st.history, pass.readings, pass.now, cfg.historySize, path);
  }

  /** Over any run of passes, with any discovered paths, failed readings and clock:
      a path is tracked exactly while retained; its history is the last historySize
      of the samples recorded since it was last forgotten; and its disappearance is
      dated to the first pass of the current run of missed ones. */
  lemma {:induction false} RunRetains(passes: seq<Pass>, cfg: Config, path: string)
    requires ValidConfig(cfg)
    ensures var st, f := Run(passes, cfg), MissedFrom(passes, path);
      && (path in st.history <==> Retained(passes, path, cfg.retention))
      && (path in st.history ==> st.history[path] == LastN(Recorded(passes, path, cfg.retention), cfg.historySize))
      && (path in st.vanishedAt <==> path in st.history && f < |passes|)
      && (path in st.vanishedAt ==> st.vanishedAt[path] == passes[f].now)
  {
    hide LastN, Step, Live, SamplesIn;
    if passes != [] {
      var n := |passes|;
      var front, last := passes[..n - 1], passes[n - 1];
      var before := Run(front, cfg);
      RunRetains(front, cfg, path);
      RetainedBound(front, cfg, path);
      StepIsPerPath(before, last, cfg, path);
      RetainedSnoc(front, last, path, cfg.retention);
      assert passes == front + [last];
      RecordedOnto(Recorded(front, path, cfg.retention), SamplesIn(last.readings, path, last.now), cfg.historySize);
      if path in before.vanishedAt {
        TimeSubReaches(last.now, before.vanishedAt[path], cfg.retention);
      }
    }
  }

  lemma RetainedBound(passes: seq<Pass>, cfg: Config, path: string)
    requires path in Run(passes, cfg).history ==>
               Run(passes, cfg).history[path] == LastN(Recorded(passes, path, cfg.retention), cfg.historySize)
    ensures path in Run(passes, cfg).history ==> |Run(passes, cfg).history[path]| <= cfg.historySize
  {
    hide Run, Recorded;
  }

  lemma RecordedOnto(recorded: seq<Sample>, taken: seq<Sample>, size: nat)
    ensures LastN(LastN(recorded, size) + taken, size) == LastN(recorded + taken, size)
    ensures [] + taken == taken
  {
    LastNAppend(recorded, taken, size);
  }

  /** How retention changes with one more pass. */
  lemma RetainedSnoc(front: seq<Pass>, last: Pass, path: string, retention: int)
    requires retention > 0
    ensures var passes, f := front + [last], MissedFrom(front, path);
      && MissedFrom(passes, path) == (if Saw(last, path) then |passes| else f)
      && (Retained(passes, path, retention) <==>
            Saw(last, path)
            || (Retained(front, path, retention) && (f < |front| ==> last.now - front[f].now < retention)))
  {
    hide Saw;
    var passes, f := front + [last], MissedFrom(front, path);
    assert passes[..|passes| - 1] == front && passes[|front|] == last;
    if !Saw(last, path) {
      assert forall d | 0 <= d < |front| :: passes[d] == front[d];
    }
  }

  lemma {:induction false} SawSamples(readings: seq<Read>, path: string, now: int)
    ensures path in Live(readings) <==> SamplesIn(readings, path, now) != []
  {
    hide Live;
    if readings == [] {
      LiveEmpty();
    } else {
      var front, last := readings[..|readings| - 1], readings[|readings| - 1];
      SawSamples(front, path, now);
      LiveSnoc(front, last);
      assert front + [last] == readings;
    }
  }

  /** A retained path has at least the sample that made it so. */
  lemma {:induction false} RetainedHasSamples(passes: seq<Pass>, path: string, retention: int)
    requires retention > 0 && Retained(passes, path, retention)
    ensures Recorded(passes, path, retention) != []
  {
    assert MissedFrom(passes, path) > 0;
    hide Saw, Retained;
    var front, last := passes[..|passes| - 1], passes[|passes| - 1];
    assert passes == front + [last];
    RetainedSnoc(front, last, path, retention);
    if Saw(last, path) {
      SawIsLive(last, path);
      SawSamples(last.readings, path, last.now);
    } else {
      RetainedHasSamples(front, path, retention);
    }
  }

  lemma SawIsLive(pass: Pass, path: string)
    ensures Saw(pass, path) <==> path in Live(pass.readings)
  {
  }

  /** A history is dropped at a pass exactly when that pass misses the path, is not
      the first to miss it, and comes at least retention after the first that did. */
  lemma DroppedExactlyWhen(passes: seq<Pass>, last: Pass, cfg: Config, path: string)
    requires ValidConfig(cfg)
    requires path in Run(passes, cfg).history
    ensures path !in Run(passes + [last], cfg).history
      <==> var f := MissedFrom(passes, path);
           !Saw(last, path) && f < |passes| && last.now - passes[f].now >= cfg.retention
  {
    hide Run, Saw;
    RunRetains(passes, cfg, path);
    RunRetains(passes + [last], cfg, path);
    RetainedSnoc(passes, last, path, cfg.retention);
  }

  // ---- what the trend analysis relies on ----

  predicate ClockAdvances(passes: seq<Pass>) {
    forall i, j | 0 <= i < j < |passes| :: passes[i].now <= passes[j].now
  }

  lemma {:induction false} SamplesInTime(readings: seq<Read>, path: string, now: int)
    ensures forall s | s in SamplesIn(readings, path, now) :: s.time == now
  {
    if readings != [] {
      SamplesInTime(readings[..|readings| - 1], path, now);
    }
  }

  lemma {:induction false} RecordedSorted(passes: seq<Pass>, path: string, retention: int)
    requires ClockAdvances(passes)
    ensures TimeSorted(Recorded(passes, path, retention))
    ensures passes != [] ==> forall s | s in Recorded(passes, path, retention) :: s.time <= passes[|passes| - 1].now
  {
    hide Retained;
    if passes != [] && Retained(passes, path, retention) {
      var front, last := passes[..|passes| - 1], passes[|passes| - 1];
      RecordedSorted(front, path, retention);
      SamplesInTime(last.readings, path, last.now);
      SortedAppend(Recorded(front, path, retention), SamplesIn(last.readings, path, last.now), last.now);
    }
  }

  lemma SortedAppend(earlier: seq<Sample>, latest: seq<Sample>, now: int)
    requires TimeSorted(earlier)
    requires forall s | s in earlier :: s.time <= now
    requires forall s | s in latest :: s.time == now
    ensures TimeSorted(earlier + latest)
    ensures forall s | s in earlier + latest :: s.time <= now
  {
    var all := earlier + latest;
    forall i, j | 0 <= i < j < |all|
      ensures all[i].time <= all[j].time
    {
      assert i < |earlier| ==> all[i] in earlier;
      assert i >= |earlier| ==> all[i] in latest;
      assert j >= |earlier| ==> all[j] in latest;
    }
  }

  /** Under a clock that never goes back, every history is sorted as Analyse needs. */
  lemma HistorySorted(passes: seq<Pass>, cfg: Config, path: string)
    requires ValidConfig(cfg) && ClockAdvances(passes)
    requires path in Run(passes, cfg).history
    ensures TimeSorted(Run(passes, cfg).history[path])
  {
    hide Run, Retained;
    RunRetains(passes, cfg, path);
    RecordedSorted(passes, path, cfg.retention);
  }

  // ---- what a sample is made of ----

  /** A sample of a path is a reading some pass took of it: its time, its statistics and
      its pressure. */
  ghost predicate WasRead(passes: seq<Pass>, path: string, s: Sample) {
    exists p, i | 0 <= p < |passes| && 0 <= i < |passes[p].readings| ::
      && passes[p].now == s.time
      && passes[p].readings[i].path == path
      && passes[p].readings[i].reading == Some((s.stats, s.pressureFull))
  }

  lemma {:induction false} SamplesWereIn(readings: seq<Read>, path: string, now: int, s: Sample)
    requires s in SamplesIn(readings, path, now)
    ensures s.time == now
    ensures exists i | 0 <= i < |readings| ::
              readings[i].path == path && readings[i].reading == Some((s.stats, s.pressureFull))
  {
    var n := |readings| - 1;
    if s in SamplesIn(readings[..n], path, now) {
      SamplesWereIn(readings[..n], path, now, s);
      var i :| 0 <= i < n && readings[..n][i].path == path
               && readings[..n][i].reading == Some((s.stats, s.pressureFull));
      assert readings[i] == readings[..n][i];
    } else {
      assert readings[n].path == path && readings[n].reading == Some((s.stats, s.pressureFull));
    }
  }

  lemma {:induction false} RecordedWereRead(passes: seq<Pass>, path: string, retention: int, s: Sample)
    requires s in Recorded(passes, path, retention)
    ensures WasRead(passes, path, s)
  {
    hide Retained, SamplesIn;
    var n := |passes| - 1;
    if s in Recorded(passes[..n], path, retention) {
      RecordedWereRead(passes[..n], path, retention, s);
      ReadEarlier(passes, path, s);
    } else {
      SamplesWereIn(passes[n].readings, path, passes[n].now, s);
    }
  }

  lemma ReadEarlier(passes: seq<Pass>, path: string, s: Sample)
    requires passes != [] && WasRead(passes[..|passes| - 1], path, s)
    ensures WasRead(passes, path, s)
  {
    var front := passes[..|passes| - 1];
    var p, i :| 0 <= p < |front| && 0 <= i < |front[p].readings|
      && front[p].now == s.time && front[p].readings[i].path == path
      && front[p].readings[i].reading == Some((s.stats, s.pressureFull));
    assert passes[p] == front[p];
  }

  /** Over any run, everything in a history was read as it stands. */
  lemma HistoryWasRead(passes: seq<Pass>, cfg: Config, path: string, s: Sample)
    requires ValidConfig(cfg)
    requires path in Run(passes, cfg).history && s in Run(passes, cfg).history[path]
    ensures WasRead(passes, path, s)
  {
    hide Run, Recorded, WasRead, Retained;
    RunRetains(passes, cfg, path);
    var recorded := Recorded(passes, path, cfg.retention);
    assert forall t | t in LastN(recorded, cfg.historySize) :: t in recorded;
    RecordedWereRead(passes, path, cfg.retention, s);
  }

  /** The newest sample of a path is the last reading the newest pass took of it. */
  lemma NewestIsRead(
    passes: seq<Pass>, pass: Pass, cfg: Config, path: string, k: nat, stats: MemoryStats, pressure: real)
    requires ValidConfig(cfg) && k < |pass.readings|
    requires pass.readings[k] == Read(path, Some((stats, pressure)))
    requires forall j | k < j < |pass.readings| :: pass.readings[j].path != path || pass.readings[j].reading == None
    ensures var st := Run(passes + [pass], cfg);
      && path in st.history && st.history[path] != []
      && var newest := st.history[path][|st.history[path]| - 1];
         newest.time == pass.now && newest.stats == stats && newest.pressureFull == pressure
  {
    hide Run, LastN, MissedFrom, Retained;
    LastTaken(pass.readings, path, pass.now, k, stats, pressure);
    SawSamples(pass.readings, path, pass.now);
    RunRetains(passes + [pass], cfg, path);
    RetainedSnoc(passes, pass, path, cfg.retention);
    assert (passes + [pass])[..|passes|] == passes;
    hide SamplesIn, Live;
    var earlier, taken := Recorded(passes, path, cfg.retention), SamplesIn(pass.readings, path, pass.now);
    assert Recorded(passes + [pass], path, cfg.retention) == earlier + taken;
  }

  lemma {:induction false} LastTaken(
    readings: seq<Read>, path: string, now: int, k: nat, stats: MemoryStats, pressure: real)
    requires k < |readings| && readings[k] == Read(path, Some((stats, pressure)))
    requires forall j | k < j < |readings| :: readings[j].path != path || readings[j].reading == None
    ensures var taken := SamplesIn(readings, path, now);
      taken != [] && taken[|taken| - 1] == Sample(now, stats, pressure)
  {
    var n := |readings| - 1;
    if k < n {
      LastTaken(readings[..n], path, now, k, stats, pressure);
    }
  }
}
