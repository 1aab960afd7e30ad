/** The sampler: one ring of samples per cgroup, updated in place by each pass. */
module Sampler {
  import opened Common
  import opened CgroupStats
  import opened SampleRing
  import opened SamplerSpec
  import Trend

  class Sampler {
    const cfg: Config
    var rings: map<string, Ring>
    var vanishedAt: map<string, int>

    /** The ring objects and their buffers. */
    ghost var Repr: set<object>

    ghost predicate Valid()
      reads this, Repr
    {
      && this !in Repr
      && ValidConfig(cfg)
      && (forall p | p in rings :: rings[p] in Repr && rings[p].samples in Repr)
      && (forall p | p in rings :: rings[p].Valid() && rings[p].samples.Length == cfg.historySize)
      && (forall p, q | p in rings && q in rings && p != q ::
            rings[p] != rings[q] && rings[p].samples != rings[q].samples)
      && vanishedAt.Keys <= rings.Keys
    }

    /** The rings' contents: what History returns, path by path. */
    ghost function Histories(): map<string, seq<Sample>>
      requires Valid()
      reads this, Repr
    {
      map p | p in rings :: rings[p].Contents()
    }

    ghost function View(): State
      requires Valid()
      reads this, Repr
    {
      State(Histories(), vanishedAt)
    }

    constructor (cfg: Config)
      requires ValidConfig(cfg)
      ensures Valid() && this.cfg == cfg
      ensures View() == Run([], cfg)
    {
      this.cfg := cfg;
      rings := map[];
      vanishedAt := map[];
      Repr := {};
    }

    /** A path gets an empty ring the first time it is read. */
    method Allocate(path: string)
      requires Valid() && path !in rings
      modifies this`rings, this`Repr
      ensures Valid() && old(Repr) <= Repr && fresh(Repr - old(Repr))
      ensures path in rings
      ensures Histories() == old(Histories())[path := []]
    {
      hide Ring.Contents;
      ghost var before := Histories();
      var ring := new Ring(cfg.historySize);
      assert forall p | p in rings ::
        rings[p] != ring && rings[p].samples != ring.samples && rings[p].Contents() == before[p];
      rings := rings[path := ring];
      Repr := Repr + {ring, ring.samples};
      assert Valid();
      MapsEqual(Histories(), before[path := []]);
    }

    /** Appends a sample to its cgroup's ring. */
    method Record(path: string, s: Sample)
      requires Valid()
      modifies this`rings, this`Repr, Repr
      ensures Valid() && old(Repr) <= Repr && fresh(Repr - old(Repr))
      ensures Histories() == SamplerSpec.Record(old(Histories()), path, s, cfg.historySize)
    {
      hide LastN, Ring.Contents;
      if path !in rings {
        RecordIntoEmpty(Histories(), path, s, cfg.historySize);
        Allocate(path);
      }
      AddTo(path, s);
    }

    /** Appends a sample to an existing ring, leaving the others alone. */
    method AddTo(path: string, s: Sample)
      requires Valid() && path in rings
      modifies Repr
      ensures Valid()
      ensures Histories() == SamplerSpec.Record(old(Histories()), path, s, cfg.historySize)
    {
      hide LastN, Ring.Contents;
      ghost var before := Histories();
      var ring := rings[path];
      ring.Add(s);
      forall p | p in rings && p != path
        ensures rings[p].Contents() == before[p]
      {
        assert rings[p] != ring && rings[p].samples != ring.samples;
      }
      MapsEqual(Histories(), SamplerSpec.Record(before, path, s, cfg.historySize));
    }

    /** The eviction loop: every tracked path is visited once, in any order. */
    method VisitTracked(live: set<string>, now: int)
      requires vanishedAt.Keys <= rings.Keys
      modifies this`rings, this`vanishedAt
      ensures vanishedAt.Keys <= rings.Keys
      ensures forall p | p in rings :: p in old(rings) && rings[p] == old(rings)[p]
      ensures forall p | p in old(rings) ::
        p in rings <==> !(p !in live && p in old(vanishedAt) && TimeSub(now, old(vanishedAt)[p]) >= cfg.retention)
      ensures forall p | p in rings :: p in vanishedAt <==> p !in live
      ensures forall p | p in vanishedAt :: vanishedAt[p] == if p in old(vanishedAt) then old(vanishedAt)[p] else now
    {
      hide TimeSub;
      ghost var all, missed := rings, vanishedAt;
      var todo := rings.Keys;
      while todo != {}
        invariant todo <= rings.Keys <= all.Keys
        invariant forall p | p in rings :: rings[p] == all[p]
        invariant vanishedAt.Keys <= rings.Keys
        invariant forall p | p in all && p !in todo ::
          p in rings <==> !(p !in live && p in missed && TimeSub(now, missed[p]) >= cfg.retention)
        invariant forall p | p in rings && p !in todo :: p in vanishedAt <==> p !in live
        invariant forall p | p in vanishedAt :: vanishedAt[p] == if p in missed then missed[p] else now
        invariant forall p | p in todo :: p in vanishedAt <==> p in missed
      {
        var path :| path in todo;
        todo := todo - {path};
        if path in live {
          vanishedAt := vanishedAt - {path};
        } else if path !in vanishedAt {
          vanishedAt := vanishedAt[path := now];
        } else if TimeSub(now, vanishedAt[path]) >= cfg.retention {
          rings := rings - {path};
          vanishedAt := vanishedAt - {path};
        }
      }
    }

    /** Forgets the paths that Expired, and dates those missed for the first time. */
    method Evict(live: set<string>, now: int)
      requires Valid()
      modifies this`rings, this`vanishedAt
      ensures Valid()
      ensures View() == SamplerSpec.Evict(old(View()), live, now, cfg.retention)
    {
      hide TimeSub, Ring.Contents, SamplerSpec.Evict;
      ghost var before := View();
      VisitTracked(live, now);
      ghost var after := Histories();
      assert forall p | p in rings :: after[p] == before.history[p];
      VisitedIsEvict(before, after, vanishedAt, live, now, cfg.retention);
    }

    /** One sampling pass. A failed discovery is reported and changes nothing. */
    method Collect(discovered: Option<Pass>) returns (ok: bool)
      requires Valid()
      modifies this, Repr
      ensures Valid() && fresh(Repr - old(Repr))
      ensures ok <==> discovered.Some?
      ensures View() == if discovered.Some? then Step(old(View()), discovered.value, cfg) else old(View())
    {
      if discovered == None {
        return false;
      }
      hide Live, SamplerSpec.Record, SamplerSpec.Evict;
      var Pass(now, readings) := discovered.value;
      var live: set<string> := {};
      for i := 0 to |readings|
        invariant Valid() && old(Repr) <= Repr && fresh(Repr - old(Repr))
        invariant vanishedAt == old(vanishedAt)
        invariant Histories() == RecordAll(old(Histories()), readings[..i], now, cfg.historySize)
        invariant live == Live(readings[..i])
      {
        assert readings[..i + 1] == readings[..i] + [readings[i]];
        LiveSnoc(readings[..i], readings[i]);
        if readings[i].reading.Some? {
          live := live + {readings[i].path};
          Record(readings[i].path, SampleOf(readings[i], now));
        }
      }
      assert readings[..|readings|] == readings;
      Evict(live, now);
      return true;
    }

    /** One path's entry of Histories, if it is tracked. */
    method History(path: string) returns (r: Option<seq<Sample>>)
      requires Valid()
      ensures r == if path in Histories() then Some(Histories()[path]) else None
    {
      if path !in rings {
        return None;
      }
      var samples := rings[path].Samples();
      return Some(samples);
    }

    method Latest(path: string) returns (r: Option<Sample>)
      requires Valid()
      ensures r == if path in Histories() && Histories()[path] != []
                   then Some(Histories()[path][|Histories()[path]| - 1]) else None
    {
      if path !in rings {
        return None;
      }
      r := rings[path].Latest();
    }

    /** The growth rate of a tracked cgroup. */
    method TrendOf(path: string) returns (r: Option<Trend.Trend>)
      requires Valid()
      ensures r.Some? <==> path in Histories()
      ensures path in Histories() ==> Trend.Describes(r.value, Histories()[path])
    {
      var samples := History(path);
      if samples == None {
        return None;
      }
      var trend := Trend.Analyse(samples.value);
      return Some(trend);
    }
  }
}
