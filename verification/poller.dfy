/** The poller's two maps, counters and snapshots, updated in place by each pass. */
module Poller {
  import opened Common
  import opened CgroupStats
  import opened Detection
  import opened VictimInference
  import opened PollerSpec

  class Poller {
    const hasProc: bool
    var counters: map<string, u64>
    var snapshots: map<string, map<int, Process>>

    ghost predicate Valid()
      reads this
    {
      forall path | path in snapshots :: KeyedByPid(snapshots[path])
    }

    ghost function View(): State
      reads this
    {
      State(counters, snapshots)
    }

    constructor (hasProc: bool)
      ensures Valid() && this.hasProc == hasProc && View() == Run([], hasProc)
    {
      this.hasProc := hasProc;
      counters := map[];
      snapshots := map[];
    }

    /** The silent first pass: nothing found is new. A failed discovery is
        reported and changes nothing. */
    method Prime(discovered: Option<seq<Entry>>) returns (ok: bool)
      requires Valid()
      modifies this
      ensures Valid()
      ensures ok <==> discovered.Some?
      ensures View() == if ok then Step(old(View()), PollerSpec.Prime(discovered.value), hasProc) else old(View())
    {
      if discovered == None {
        return false;
      }
      var entries := discovered.value;
      for i := 0 to |entries|
        invariant counters == Baseline(old(counters), entries[..i]) && snapshots == old(snapshots)
      {
        assert entries[..i + 1][..i] == entries[..i];
        if entries[i].stats.Some? {
          counters := counters[entries[i].path := entries[i].stats.value.OOMKills()];
        }
      }
      assert entries[..|entries|] == entries;
      RefreshSnapshots(entries);
      return true;
    }

    /** One detection pass, cancelled after so many sends. The state has moved on by
        then, so what was not sent is not found again. */
    method Poll(now: int, discovered: Option<seq<Entry>>, sends: nat) returns (ok: bool, sent: seq<KillEvent>)
      requires Valid()
      modifies this
      ensures Valid()
      ensures ok <==> discovered.Some?
      ensures !ok ==> View() == old(View()) && sent == []
      ensures ok ==>
                var input := PollerSpec.Poll(now, discovered.value);
                && View() == Step(old(View()), input, hasProc)
                && sent == Published(EventsOf(old(View()), input, hasProc), sends)
    {
      if discovered == None {
        return false, [];
      }
      var entries := discovered.value;
      var events := DetectAll(now, entries);
      RefreshSnapshots(entries);
      Evict(entries);
      sent := [];
      for i := 0 to |events|
        invariant |sent| == i <= sends
        invariant sent == events[..i]
      {
        if i == sends {
          return true, sent;
        }
        sent := sent + [events[i]];
      }
      return true, sent;
    }

    /** Walks the discovered cgroups once, noting each counter and any rise. */
    method DetectAll(now: int, entries: seq<Entry>) returns (events: seq<KillEvent>)
      requires Valid()
      modifies this`counters
      ensures counters == Baseline(old(counters), entries)
      ensures events == Detect(old(counters), snapshots, entries, now, hasProc)
    {
      hide Inferred;
      events := [];
      for i := 0 to |entries|
        invariant counters == Baseline(old(counters), entries[..i])
        invariant events == Detect(old(counters), snapshots, entries[..i], now, hasProc)
      {
        assert entries[..i + 1][..i] == entries[..i];
        var entry := entries[i];
        if entry.stats.Some? {
          var current := entry.stats.value.OOMKills();
          var seen := entry.path in counters;
          var previous := if seen then counters[entry.path] else 0;
          counters := counters[entry.path := current];
          if seen && current > previous {
            var victim := InferVictim(Get(snapshots, entry.path), entry.survivors, hasProc);
            events := events + [KillEvent(now, entry.path, victim, current, entry.groupKill, PollerSource)];
          }
        }
      }
      assert entries[..|entries|] == entries;
    }

    /** Records the current process list of each cgroup that can be listed. */
    method RefreshSnapshots(entries: seq<Entry>)
      requires Valid()
      modifies this`snapshots
      ensures Valid()
      ensures snapshots == if hasProc then Refresh(old(snapshots), entries) else old(snapshots)
    {
      if !hasProc {
        return;
      }
      for i := 0 to |entries|
        invariant Valid()
        invariant snapshots == Refresh(old(snapshots), entries[..i])
      {
        assert entries[..i + 1][..i] == entries[..i];
        if entries[i].listing.Some? {
          var byPid := Index(entries[i].listing.value);
          snapshots := snapshots[entries[i].path := byPid];
        }
      }
      assert entries[..|entries|] == entries;
    }

    /** Indexes a listing by PID. */
    static method Index(listing: seq<Process>) returns (byPid: map<int, Process>)
      ensures byPid == ByPid(listing)
    {
      byPid := map[];
      assert ByPid(listing[..0]) == map[];
      hide ByPid, KeyedByPid;
      for i := 0 to |listing|
        invariant byPid == ByPid(listing[..i])
      {
        ByPidSnoc(listing, i);
        byPid := byPid[listing[i].pid := listing[i]];
      }
      assert listing[..|listing|] == listing;
    }

    /** Drops state for cgroups no longer discovered, walking the counters in any
        order. */
    method Evict(entries: seq<Entry>)
      requires Valid()
      modifies this
      ensures Valid()
      ensures counters == EvictCounters(old(counters), Paths(entries))
      ensures snapshots == EvictSnapshots(old(snapshots), old(counters), Paths(entries))
    {
      var live := set i | 0 <= i < |entries| :: entries[i].path;
      ghost var allCounters, allSnapshots := counters, snapshots;
      var todo := counters.Keys;
      while todo != {}
        invariant todo <= counters.Keys <= allCounters.Keys && snapshots.Keys <= allSnapshots.Keys
        invariant forall path | path in counters :: counters[path] == allCounters[path]
        invariant forall path | path in snapshots :: snapshots[path] == allSnapshots[path]
        invariant forall path | path in allCounters && path !in todo :: path in counters <==> path in live
        invariant forall path | path in allSnapshots ::
          path in snapshots <==> path in live || path !in allCounters || path in todo
      {
        var path :| path in todo;
        todo := todo - {path};
        if path !in live {
          counters := counters - {path};
          snapshots := snapshots - {path};
        }
      }
      MapsEqual(counters, EvictCounters(allCounters, live));
      MapsEqual(snapshots, EvictSnapshots(allSnapshots, allCounters, live));
    }
  }
}
