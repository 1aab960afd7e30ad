/** Resolving pod UIDs, with deleted pods kept resolvable for a grace period. */
module PodCache {
  import opened Common

  datatype ContainerInfo = ContainerInfo(name: string, image: string)
  datatype PodInfo = PodInfo(namespace: string, name: string, node: string, containers: map<string, ContainerInfo>)
  datatype Burial = Burial(pod: PodInfo, expires: int)

  /** What an informer handler is given: a pod, the last known state of a pod whose
      delete was missed, or something that is no pod at all. */
  datatype Notice =
    | Pod(uid: string, info: PodInfo)
    | Tombstone(uid: string, info: PodInfo)
    | Unrecognised

  /** One handler call, with the clock readings it takes. */
  datatype Event =
    | Upserted(notice: Notice)
    | Removed(notice: Notice, at: int, sweepAt: int)

  datatype State = State(live: map<string, PodInfo>, buried: map<string, Burial>)

  // ---- the handlers as steps ----

  predicate Accepted(e: Event) {
    match e
    case Upserted(notice) => notice.Pod?
    case Removed(notice, _, _) => !notice.Unrecognised?
  }

  function Swept(buried: map<string, Burial>, now: int): map<string, Burial> {
    map uid | uid in buried && now <= buried[uid].expires :: buried[uid]
  }

  /** One handler call; sweeping says whether a delete also sweeps the graveyard. */
  function Step(st: State, e: Event, grace: int, sweeping: bool): State {
    if !Accepted(e) then st
    else
      match e
      case Upserted(notice) => State(st.live[notice.uid := notice.info], st.buried - {notice.uid})
      case Removed(notice, at, sweepAt) =>
        var info := if notice.uid in st.live then st.live[notice.uid] else notice.info;
        var buried := st.buried[notice.uid := Burial(info, at + grace)];
        State(st.live - {notice.uid}, if sweeping then Swept(buried, sweepAt) else buried)
  }

  function Run(log: seq<Event>, grace: int, sweeping: bool): State {
    if log == [] then State(map[], map[])
    else Step(Run(log[..|log| - 1], grace, sweeping), log[|log| - 1], grace, sweeping)
  }

  function Lookup(st: State, uid: string, now: int): Option<PodInfo> {
    if uid in st.live then Some(st.live[uid])
    else if uid in st.buried && now <= st.buried[uid].expires then Some(st.buried[uid].pod)
    else None
  }

  // ---- the same answers, read off the log ----

  predicate About(e: Event, uid: string) {
    Accepted(e) && e.notice.uid == uid
  }

  /** What the newest event about the pod left live. */
  function LiveAfter(log: seq<Event>, uid: string): Option<PodInfo> {
    if log == [] then None
    else
      var last := log[|log| - 1];
      if !About(last, uid) then LiveAfter(log[..|log| - 1], uid)
      else if last.Upserted? then Some(last.notice.info)
      else None
  }

  /** The newest event decides: an upsert gives its info for good; a remove at t
      gives, up to t + grace, the info live just before it or else its own object. */
  function Answer(log: seq<Event>, uid: string, now: int, grace: int): Option<PodInfo> {
    if log == [] then None
    else
      var front, last := log[..|log| - 1], log[|log| - 1];
      if !About(last, uid) then Answer(front, uid, now, grace)
      else if last.Upserted? then Some(last.notice.info)
      else if now > last.at + grace then None
      else if LiveAfter(front, uid).Some? then LiveAfter(front, uid)
      else Some(last.notice.info)
  }

  function Max(a: int, b: int): int {
    if a >= b then a else b
  }

  /** As Answer, but a grave must also outlast every sweep since it was dug. */
  function AnswerSwept(log: seq<Event>, uid: string, now: int, grace: int): Option<PodInfo> {
    if log == [] then None
    else
      var front, last := log[..|log| - 1], log[|log| - 1];
      var horizon := if Accepted(last) && last.Removed? then Max(now, last.sweepAt) else now;
      if !About(last, uid) then AnswerSwept(front, uid, horizon, grace)
      else if last.Upserted? then Some(last.notice.info)
      else if horizon > last.at + grace then None
      else if LiveAfter(front, uid).Some? then LiveAfter(front, uid)
      else Some(last.notice.info)
  }

  // ---- the refinement ----

  lemma {:induction false} LiveIsLiveAfter(log: seq<Event>, uid: string, grace: int, sweeping: bool)
    ensures var st := Run(log, grace, sweeping);
      LiveAfter(log, uid) == if uid in st.live then Some(st.live[uid]) else None
  {
    if log != [] {
      LiveIsLiveAfter(log[..|log| - 1], uid, grace, sweeping);
    }
  }

  /** A sweep moves the clock forward for graves and does nothing else. */
  lemma SweepIsLaterLookup(st: State, uid: string, now: int, sweepAt: int)
    ensures Lookup(State(st.live, Swept(st.buried, sweepAt)), uid, now) == Lookup(st, uid, Max(now, sweepAt))
  {
  }

  /** For every log and every clock, even one that goes back: a lookup answers as
      the log says, provided each grave outlasts the sweeps since it was dug. */
  lemma {:induction false} LookupIsAnswerSwept(log: seq<Event>, uid: string, now: int, grace: int)
    ensures Lookup(Run(log, grace, true), uid, now) == AnswerSwept(log, uid, now, grace)
  {
    if log != [] {
      var front, last := log[..|log| - 1], log[|log| - 1];
      var before := Run(front, grace, true);
      LiveIsLiveAfter(front, uid, grace, true);
      LookupIsAnswerSwept(front, uid, now, grace);
      if Accepted(last) && last.Removed? {
        LookupIsAnswerSwept(front, uid, Max(now, last.sweepAt), grace);
        var unswept := Step(before, last, grace, false);
        SweepIsLaterLookup(unswept, uid, now, last.sweepAt);
        assert Run(log, grace, true) == State(unswept.live, Swept(unswept.buried, last.sweepAt));
      }
    }
  }

  /** Without sweeps no clock assumption is needed. */
  lemma {:induction false} UnsweptLookupIsAnswer(log: seq<Event>, uid: string, now: int, grace: int)
    ensures Lookup(Run(log, grace, false), uid, now) == Answer(log, uid, now, grace)
  {
    if log != [] {
      LiveIsLiveAfter(log[..|log| - 1], uid, grace, false);
      UnsweptLookupIsAnswer(log[..|log| - 1], uid, now, grace);
    }
  }

  /** The newest event about the pod, or -1. */
  function NewestAbout(log: seq<Event>, uid: string): (i: int)
    ensures -1 <= i < |log|
    ensures i >= 0 ==> About(log[i], uid)
    ensures forall j | i < j < |log| :: !About(log[j], uid)
  {
    if log == [] then -1
    else if About(log[|log| - 1], uid) then |log| - 1
    else NewestAbout(log[..|log| - 1], uid)
  }

  predicate Sweeps(e: Event) {
    Accepted(e) && e.Removed?
  }

  /** The newest event deleted the pod, and neither the lookup nor any sweep since
      read a clock beyond its grace period. */
  predicate SweptWithin(log: seq<Event>, uid: string, now: int, grace: int) {
    var i := NewestAbout(log, uid);
    && i >= 0 && log[i].Removed?
    && now <= log[i].at + grace
    && forall j | i <= j < |log| && Sweeps(log[j]) :: log[j].sweepAt <= log[i].at + grace
  }

  lemma NewestSnoc(front: seq<Event>, last: Event, uid: string)
    ensures NewestAbout(front + [last], uid) == if About(last, uid) then |front| else NewestAbout(front, uid)
  {
    assert (front + [last])[..|front|] == front;
  }

  lemma SweptWithinSnoc(front: seq<Event>, last: Event, uid: string, now: int, grace: int)
    ensures var horizon := if Sweeps(last) then Max(now, last.sweepAt) else now;
      SweptWithin(front + [last], uid, now, grace) <==>
        if About(last, uid) then last.Removed? && horizon <= last.at + grace
        else SweptWithin(front, uid, horizon, grace)
  {
    var log := front + [last];
    NewestSnoc(front, last, uid);
    assert forall j | 0 <= j < |front| :: log[j] == front[j];
    assert log[|front|] == last;
  }

  /** What the log says of a pod changes with the lookup's clock only when its grace
      period ends. */
  lemma {:induction false} AnswerWithin(log: seq<Event>, uid: string, now: int, later: int, grace: int)
    requires now <= later && SweptWithin(log, uid, later, grace)
    ensures Answer(log, uid, now, grace) == Answer(log, uid, later, grace)
    ensures Answer(log, uid, now, grace).Some? && LiveAfter(log, uid) == None
  {
    var front, last := log[..|log| - 1], log[|log| - 1];
    assert log == front + [last];
    SweptWithinSnoc(front, last, uid, later, grace);
    if !About(last, uid) {
      var horizon := if Sweeps(last) then Max(later, last.sweepAt) else later;
      AnswerWithin(front, uid, now, horizon, grace);
      AnswerWithin(front, uid, later, horizon, grace);
    }
  }

  lemma {:induction false} AnswerSweptExactly(log: seq<Event>, uid: string, now: int, grace: int)
    ensures AnswerSwept(log, uid, now, grace) ==
            if LiveAfter(log, uid).Some? then LiveAfter(log, uid)
            else if SweptWithin(log, uid, now, grace) then Answer(log, uid, now, grace)
            else None
    ensures LiveAfter(log, uid).Some? ==> Answer(log, uid, now, grace) == LiveAfter(log, uid)
  {
    hide SweptWithin;
    if log == [] {
      EmptyLog(uid, now, grace);
    } else {
      var front, last := log[..|log| - 1], log[|log| - 1];
      var horizon := if Sweeps(last) then Max(now, last.sweepAt) else now;
      assert log == front + [last];
      SweptWithinSnoc(front, last, uid, now, grace);
      AnswerSweptExactly(front, uid, now, grace);
      AnswerSweptExactly(front, uid, horizon, grace);
      if SweptWithin(front, uid, horizon, grace) {
        AnswerWithin(front, uid, now, horizon, grace);
      }
    }
  }

  lemma EmptyLog(uid: string, now: int, grace: int)
    ensures !SweptWithin([], uid, now, grace)
  {
  }

  /** For every log and every clock: a lookup answers what the log says exactly when
      the log says nothing, or the pod is live, or no clock read since its delete was
      beyond its grace period; and just then sweeping the graveyard goes unseen. */
  lemma LookupRefinesLogExactly(log: seq<Event>, uid: string, now: int, grace: int)
    ensures Lookup(Run(log, grace, true), uid, now) == Answer(log, uid, now, grace) <==>
              || Answer(log, uid, now, grace) == None
              || LiveAfter(log, uid).Some?
              || SweptWithin(log, uid, now, grace)
    ensures Lookup(Run(log, grace, true), uid, now) in {None, Answer(log, uid, now, grace)}
    ensures Lookup(Run(log, grace, false), uid, now) == Answer(log, uid, now, grace)
  {
    hide Lookup, Run, SweptWithin, Answer, AnswerSwept;
    LookupIsAnswerSwept(log, uid, now, grace);
    AnswerSweptExactly(log, uid, now, grace);
    UnsweptLookupIsAnswer(log, uid, now, grace);
  }

  /** No sweep in the log read a clock later than now. */
  predicate ReadBy(log: seq<Event>, now: int) {
    forall i | 0 <= i < |log| && log[i].Removed? :: log[i].sweepAt <= now
  }

  lemma {:induction false} AnsweredInTime(log: seq<Event>, uid: string, now: int, grace: int)
    requires ReadBy(log, now)
    requires Answer(log, uid, now, grace).Some? && LiveAfter(log, uid) == None
    ensures SweptWithin(log, uid, now, grace)
  {
    var front, last := log[..|log| - 1], log[|log| - 1];
    assert log == front + [last];
    SweptWithinSnoc(front, last, uid, now, grace);
    if !About(last, uid) {
      assert forall i | 0 <= i < |front| :: front[i] == log[i];
      AnsweredInTime(front, uid, now, grace);
    }
  }

  /** Under a clock that never goes back, which is all Go's own monotonic clock does,
      a lookup answers exactly what the log says, so sweeping is unobservable. */
  lemma LookupRefinesLog(log: seq<Event>, uid: string, now: int, grace: int)
    requires ReadBy(log, now)
    ensures Lookup(Run(log, grace, true), uid, now) == Answer(log, uid, now, grace)
    ensures Lookup(Run(log, grace, true), uid, now) == Lookup(Run(log, grace, false), uid, now)
  {
    hide Lookup, Run, SweptWithin, Answer, ReadBy;
    LookupRefinesLogExactly(log, uid, now, grace);
    if Answer(log, uid, now, grace).Some? && LiveAfter(log, uid) == None {
      AnsweredInTime(log, uid, now, grace);
    }
  }

  /** An injected clock that goes back can be noticed: a pod still within its grace
      period is lost when another delete's sweep read a time past that period. */
  lemma ClockMattersToLookup(uid: string, other: string, info: PodInfo, at: int, grace: nat, late: int, now: int)
    requires uid != other && now <= at + grace < late
    ensures var log := [Removed(Pod(uid, info), at, at), Removed(Pod(other, info), at, late)];
      Lookup(Run(log, grace, true), uid, now) == None && Answer(log, uid, now, grace) == Some(info)
  {
    var log := [Removed(Pod(uid, info), at, at), Removed(Pod(other, info), at, late)];
    LookupIsAnswerSwept(log, uid, now, grace);
    assert log[..1] == [log[0]] && log[..1][..0] == [];
    assert LiveAfter([], uid) == None;
  }

  /** A pod is never live and buried at once, and right after a delete every grave
      left is still open. */
  lemma {:induction false} LiveAndBuriedDisjoint(log: seq<Event>, grace: int, sweeping: bool)
    ensures var st := Run(log, grace, sweeping);
      && st.live.Keys !! st.buried.Keys
      && (sweeping && log != [] && Accepted(log[|log| - 1]) && log[|log| - 1].Removed? ==>
            forall uid | uid in st.buried :: log[|log| - 1].sweepAt <= st.buried[uid].expires)
  {
    if log != [] {
      LiveAndBuriedDisjoint(log[..|log| - 1], grace, sweeping);
    }
  }

  // ---- the maps, updated in place ----

  class Cache {
    const grace: int
    var live: map<string, PodInfo>
    var buried: map<string, Burial>

    ghost function View(): State
      reads this
    {
      State(live, buried)
    }

    constructor (grace: int)
      ensures this.grace == grace && View() == Run([], grace, true)
    {
      this.grace := grace;
      live := map[];
      buried := map[];
    }

    /** A pod seen alive is live again, whatever was buried before. */
    method Upsert(notice: Notice)
      modifies this
      ensures View() == Step(old(View()), Upserted(notice), grace, true)
    {
      if !notice.Pod? {
        return;
      }
      live := live[notice.uid := notice.info];
      buried := buried - {notice.uid};
    }

    /** Moves a pod to the graveyard. */
    method Remove(notice: Notice, at: int, sweepAt: int)
      modifies this
      ensures View() == Step(old(View()), Removed(notice, at, sweepAt), grace, true)
    {
      if notice.Unrecognised? {
        return;
      }
      var info := notice.info;
      if notice.uid in live {
        info := live[notice.uid];
      }
      live := live - {notice.uid};
      buried := buried[notice.uid := Burial(info, at + grace)];
      Sweep(sweepAt);
    }

    /** Drops expired graves, visiting them in any order. */
    method Sweep(now: int)
      modifies this`buried
      ensures buried == Swept(old(buried), now)
    {
      ghost var before := buried;
      var todo := buried.Keys;
      while todo != {}
        invariant todo <= buried.Keys <= before.Keys
        invariant forall uid | uid in buried :: buried[uid] == before[uid]
        invariant forall uid | uid in before && uid !in todo :: uid in buried <==> now <= before[uid].expires
      {
        var uid :| uid in todo;
        todo := todo - {uid};
        if now > buried[uid].expires {
          buried := buried - {uid};
        }
      }
      MapsEqual(buried, Swept(before, now));
    }

    method LookupPod(uid: string, now: int) returns (r: Option<PodInfo>)
      ensures r == Lookup(View(), uid, now)
    {
      if uid in live {
        return Some(live[uid]);
      }
      if uid in buried && !(now > buried[uid].expires) {
        return Some(buried[uid].pod);
      }
      return None;
    }
  }

  // ---- one notice, whatever came before ----

  /** A pod upserted is found at once and for good; any other object is ignored. */
  lemma UpsertIsFound(log: seq<Event>, grace: int, notice: Notice, uid: string, now: int)
    ensures var before, after := Run(log, grace, true), Run(log + [Upserted(notice)], grace, true);
      match notice
      case Pod(named, info) => Lookup(after, uid, now) == if uid == named then Some(info) else Lookup(before, uid, now)
      case Tombstone(_, _) => after == before
      case Unrecognised => after == before
  {
    hide Run;
    RunSnoc(log, Upserted(notice), grace);
  }

  /** A pod removed, or one whose removal was missed and comes as a tombstone, is found
      up to and including the end of its grace period, counted from the removal, as it
      was last known live, else as it was handed over. Sweeping read a clock too. */
  lemma RemovedIsFoundInGrace(log: seq<Event>, grace: int, notice: Notice, at: int, sweepAt: int, uid: string, now: int)
    ensures var before, after := Run(log, grace, true), Run(log + [Removed(notice, at, sweepAt)], grace, true);
      match notice
      case Pod(named, info) => uid == named ==> FoundInGrace(log, after, uid, info, at + grace, sweepAt, now)
      case Tombstone(named, info) => uid == named ==> FoundInGrace(log, after, uid, info, at + grace, sweepAt, now)
      case Unrecognised => after == before
  {
    hide Run, LiveAfter;
    RunSnoc(log, Removed(notice, at, sweepAt), grace);
    LiveIsLiveAfter(log, uid, grace, true);
  }

  predicate FoundInGrace(log: seq<Event>, after: State, uid: string, info: PodInfo, end: int, sweepAt: int, now: int) {
    Lookup(after, uid, now) ==
      if now > end || sweepAt > end then None
      else if LiveAfter(log, uid).Some? then LiveAfter(log, uid)
      else Some(info)
  }

  lemma RunSnoc(log: seq<Event>, e: Event, grace: int)
    ensures Run(log + [e], grace, true) == Step(Run(log, grace, true), e, grace, true)
  {
    assert (log + [e])[..|log|] == log;
  }
}
