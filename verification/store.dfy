/** A bounded in-memory report store with an index by ID. */
module Store {
  import opened Common
  import opened Reports

  const DEFAULT_CAPACITY: nat := 256

  /** A field left at its zero value matches everything; a limit that is not positive means all. */
  datatype Filter = Filter(namespace: string, pod: string, container: string, limit: int)

  predicate Matches(f: Filter, r: Report) {
    && (f.namespace != "" ==> r.identity.namespace == f.namespace)
    && (f.pod != "" ==> r.identity.podName == f.pod)
    && (f.container != "" ==> r.identity.containerName == f.container)
  }

  /** A report has the namespace, pod and container asked for, where one is. */
  predicate Meets(r: Report, f: Filter) {
    && (f.namespace == "" || f.namespace == r.identity.namespace)
    && (f.pod == "" || f.pod == r.identity.podName)
    && (f.container == "" || f.container == r.identity.containerName)
  }

  lemma MatchesOnFields(r: Report, f: Filter)
    ensures Matches(f, r) <==> Meets(r, f)
  {
  }

  // ---- the store as a sequence, oldest first ----

  predicate DistinctIds(reports: seq<Report>) {
    forall i, j | 0 <= i < j < |reports| :: reports[i].id != reports[j].id
  }

  /** Where a linear search finds an ID. */
  function IndexOf(reports: seq<Report>, id: string): (r: Option<nat>)
    ensures r.Some? ==> r.value < |reports| && reports[r.value].id == id
    ensures r == None <==> forall i | 0 <= i < |reports| :: reports[i].id != id
  {
    if reports == [] then None
    else if reports[|reports| - 1].id == id then Some(|reports| - 1)
    else IndexOf(reports[..|reports| - 1], id)
  }

  function Search(reports: seq<Report>, id: string): Option<Report> {
    match IndexOf(reports, id)
    case Some(i) => Some(reports[i])
    case None => None
  }

  /** A known ID is replaced in place; a new one joins, and the oldest leaves a full
      store. */
  function PutInto(reports: seq<Report>, r: Report, capacity: nat): seq<Report> {
    match IndexOf(reports, r.id)
    case Some(i) => reports[i := r]
    case None => LastN(reports + [r], capacity)
  }

  /** Newest to oldest, keeping matches, stopping when there is no more room. */
  function ScanNewest(reports: seq<Report>, f: Filter, room: Option<nat>): seq<Report> {
    if reports == [] || room == Some(0) then []
    else
      var front, last := reports[..|reports| - 1], reports[|reports| - 1];
      if !Matches(f, last) then ScanNewest(front, f, room)
      else [last] + ScanNewest(front, f, match room case Some(n) => Some(n - 1) case None => None)
  }

  function Room(f: Filter): Option<nat> {
    if f.limit > 0 then Some(f.limit) else None
  }

  function Matching(reports: seq<Report>, f: Filter): seq<Report> {
    if reports == [] then []
    else
      var last := reports[|reports| - 1];
      Matching(reports[..|reports| - 1], f) + if Matches(f, last) then [last] else []
  }

  /** slices.Reverse. */
  function Reverse(reports: seq<Report>): seq<Report> {
    if reports == [] then [] else [reports[|reports| - 1]] + Reverse(reports[..|reports| - 1])
  }

  function Truncate(reports: seq<Report>, room: Option<nat>): seq<Report> {
    if room.Some? && |reports| > room.value then reports[..room.value] else reports
  }

  /** Collecting, reversing and truncating is a scan from the newest. */
  lemma {:induction false} ReversedMatchesAreScan(reports: seq<Report>, f: Filter, room: Option<nat>)
    ensures Truncate(Reverse(Matching(reports, f)), room) == ScanNewest(reports, f, room)
  {
    if reports != [] {
      var front, last := reports[..|reports| - 1], reports[|reports| - 1];
      var matched := Matching(front, f);
      if Matches(f, last) {
        var less := match room case Some(n) => if n == 0 then Some(0) else Some(n - 1) case None => None;
        ReversedMatchesAreScan(front, f, less);
        assert (matched + [last])[..|matched|] == matched;
        assert Reverse(matched + [last]) == [last] + Reverse(matched);
      } else {
        ReversedMatchesAreScan(front, f, room);
        assert matched + [] == matched;
      }
    }
  }

  /** Positions from the newest down, none twice. */
  predicate Falling(positions: seq<nat>) {
    forall i, j | 0 <= i < j < |positions| :: positions[i] > positions[j]
  }

  /** What a listing holds, read off those positions of the stored reports: only reports
      that meet the filter, newest first; and every one that does, unless the room ran
      out, and then the newest of them. */
  ghost predicate PickedAt(
    listed: seq<Report>, stored: seq<Report>, f: Filter, room: Option<nat>, positions: seq<nat>)
  {
    && |positions| == |listed| && Falling(positions)
    && (forall i | 0 <= i < |listed| ::
          positions[i] < |stored| && listed[i] == stored[positions[i]] && Meets(listed[i], f))
    && (room.Some? ==> |listed| <= room.value)
    && (forall k | 0 <= k < |stored| && Meets(stored[k], f) && k !in positions ::
          room == Some(|listed|) && forall i | 0 <= i < |positions| :: k < positions[i])
  }

  lemma {:induction false} ScanPicks(reports: seq<Report>, f: Filter, room: Option<nat>) returns (positions: seq<nat>)
    ensures PickedAt(ScanNewest(reports, f, room), reports, f, room, positions)
  {
    if reports == [] || room == Some(0) {
      positions := [];
    } else {
      hide PickedAt, Matches;
      var front, last := reports[..|reports| - 1], reports[|reports| - 1];
      assert reports == front + [last];
      MatchesOnFields(last, f);
      if Matches(f, last) {
        var less := match room case Some(n) => Some(n - 1) case None => None;
        var rest := ScanPicks(front, f, less);
        positions := [|front|] + rest;
        PicksOneMore(ScanNewest(front, f, less), front, last, f, less, rest);
      } else {
        positions := ScanPicks(front, f, room);
        PicksNoMore(ScanNewest(front, f, room), front, last, f, room, positions);
      }
    }
  }

  lemma PicksNoMore(
    listed: seq<Report>, front: seq<Report>, last: Report, f: Filter, room: Option<nat>, positions: seq<nat>)
    requires PickedAt(listed, front, f, room, positions) && !Meets(last, f)
    ensures PickedAt(listed, front + [last], f, room, positions)
  {
    hide Meets, Falling;
    assert forall k | 0 <= k < |front| :: (front + [last])[k] == front[k];
  }

  lemma PicksOneMore(
    listed: seq<Report>, front: seq<Report>, last: Report, f: Filter, room: Option<nat>, rest: seq<nat>)
    requires PickedAt(listed, front, f, room, rest) && Meets(last, f)
    ensures var more := match room case Some(n) => Some(n + 1) case None => None;
      PickedAt([last] + listed, front + [last], f, more, [|front|] + rest)
  {
    hide Meets, Falling;
    var stored, positions := front + [last], [|front|] + rest;
    FallingCons(|front|, rest);
    forall k | 0 <= k < |stored| && Meets(stored[k], f) && k !in positions
      ensures room == Some(|listed|) && forall i | 0 <= i < |positions| :: k < positions[i]
    {
      assert positions[0] == |front| && k != |front|;
      assert stored[k] == front[k] && k !in rest;
    }
    forall i | 0 <= i < |listed| + 1
      ensures positions[i] < |stored| && ([last] + listed)[i] == stored[positions[i]] && Meets(([last] + listed)[i], f)
    {
      if i > 0 {
        assert positions[i] == rest[i - 1] && ([last] + listed)[i] == listed[i - 1];
      }
    }
  }

  lemma FallingCons(top: nat, rest: seq<nat>)
    requires Falling(rest) && forall i | 0 <= i < |rest| :: rest[i] < top
    ensures Falling([top] + rest)
  {
  }

  /** A listing under a filter, with its limit where that is positive. */
  ghost predicate Picked(listed: seq<Report>, stored: seq<Report>, f: Filter, positions: seq<nat>) {
    PickedAt(listed, stored, f, if f.limit > 0 then Some(f.limit) else None, positions)
  }

  /** The index is exactly where a linear search would look. */
  ghost predicate Indexes(byID: map<string, nat>, reports: seq<Report>) {
    && (forall id | id in byID :: byID[id] < |reports| && reports[byID[id]].id == id)
    && (forall i | 0 <= i < |reports| :: reports[i].id in byID && byID[reports[i].id] == i)
  }

  lemma IndexedSearch(byID: map<string, nat>, reports: seq<Report>, id: string)
    requires Indexes(byID, reports)
    ensures DistinctIds(reports)
    ensures IndexOf(reports, id) == if id in byID then Some(byID[id]) else None
  {
    assert forall i, j | 0 <= i < j < |reports| :: byID[reports[i].id] == i && byID[reports[j].id] == j;
  }

  lemma IndexedReplace(byID: map<string, nat>, reports: seq<Report>, r: Report)
    requires Indexes(byID, reports) && r.id in byID
    ensures Indexes(byID, reports[byID[r.id] := r])
  {
    var after := reports[byID[r.id] := r];
    assert forall i | 0 <= i < |reports| :: after[i].id == reports[i].id;
  }

  lemma IndexedAppend(byID: map<string, nat>, reports: seq<Report>, r: Report)
    requires Indexes(byID, reports) && r.id !in byID
    ensures Indexes(byID[r.id := |reports|], reports + [r])
  {
    assert forall i | 0 <= i < |reports| :: reports[i].id != r.id;
  }

  class Memory {
    const capacity: nat
    var ordered: seq<Report>
    var byID: map<string, nat>

    ghost predicate Valid()
      reads this
    {
      && 0 < capacity
      && |ordered| <= capacity
      && Indexes(byID, ordered)
    }

    constructor (capacity: int)
      ensures Valid() && ordered == []
      ensures this.capacity == if capacity <= 0 then 256 else capacity
    {
      this.capacity := if capacity <= 0 then DEFAULT_CAPACITY else capacity;
      ordered := [];
      byID := map[];
    }

    /** Overwrites in place a report of the same ID, else appends and drops the front of
        an overfull sequence. */
    method Put(report: Report)
      requires Valid()
      modifies this
      ensures Valid()
      ensures ordered == PutInto(old(ordered), report, capacity)
    {
      hide IndexOf, Indexes, LastN;
      IndexedSearch(byID, ordered, report.id);
      LastNSnoc(ordered, report, capacity);
      if report.id in byID {
        var index := byID[report.id];
        IndexedReplace(byID, ordered, report);
        ordered := ordered[index := report];
        return;
      }
      if |ordered| >= capacity {
        ordered := ordered[1..];
        Reindex();
        IndexedSearch(byID, ordered, report.id);
      }
      IndexedAppend(byID, ordered, report);
      ordered := ordered + [report];
      byID := byID[report.id := |ordered| - 1];
    }

    /** Positions have moved: every ID is entered again. */
    method Reindex()
      requires DistinctIds(ordered)
      modifies this`byID
      ensures Indexes(byID, ordered)
    {
      byID := map[];
      for i := 0 to |ordered|
        invariant Indexes(byID, ordered[..i])
      {
        assert ordered[..i + 1] == ordered[..i] + [ordered[i]];
        byID := byID[ordered[i].id := i];
      }
      assert ordered[..|ordered|] == ordered;
    }

    /** Follows the index. */
    method Get(id: string) returns (r: Option<Report>)
      requires Valid()
      ensures r == Search(ordered, id)
    {
      IndexedSearch(byID, ordered, id);
      if id !in byID {
        return None;
      }
      return Some(ordered[byID[id]]);
    }

    /** Scans from the newest end until the limit is met. */
    method List(filter: Filter) returns (matched: seq<Report>)
      requires Valid()
      ensures matched == ScanNewest(ordered, filter, Room(filter))
      ensures exists positions :: Picked(matched, ordered, filter, positions)
    {
      matched := [];
      for i := 0 to |ordered|
        invariant matched == Matching(ordered[..i], filter)
      {
        assert ordered[..i + 1][..i] == ordered[..i];
        if Matches(filter, ordered[i]) {
          matched := matched + [ordered[i]];
        }
      }
      assert ordered[..|ordered|] == ordered;
      matched := Reverse(matched);
      ghost var positions := ScanPicks(ordered, filter, Room(filter));
      assert Picked(ScanNewest(ordered, filter, Room(filter)), ordered, filter, positions);
      ReversedMatchesAreScan(ordered, filter, Room(filter));
      if filter.limit > 0 && |matched| > filter.limit {
        matched := matched[..filter.limit];
      }
    }
  }

  // ---- runs of puts ----

  function PutAll(reports: seq<Report>, capacity: nat): seq<Report> {
    if reports == [] then [] else PutInto(PutAll(reports[..|reports| - 1], capacity), reports[|reports| - 1], capacity)
  }

  /** Reports that never repeat an ID never meet the replace branch: the store holds
      exactly the last of them, in order. */
  lemma {:induction false} FreshPutsKeepLast(reports: seq<Report>, capacity: nat)
    requires capacity > 0 && DistinctIds(reports)
    ensures PutAll(reports, capacity) == LastN(reports, capacity)
    ensures reports != [] ==> IndexOf(PutAll(reports[..|reports| - 1], capacity), reports[|reports| - 1].id) == None
  {
    hide LastN, IndexOf;
    if reports != [] {
      var front, last := reports[..|reports| - 1], reports[|reports| - 1];
      FreshPutsKeepLast(front, capacity);
      LastNAppend(front, [last], capacity);
      assert front + [last] == reports;
      FreshInWindow(front, last, capacity);
    } else {
      NothingKept(capacity);
    }
  }

  lemma FreshInWindow(front: seq<Report>, last: Report, capacity: nat)
    requires DistinctIds(front + [last])
    ensures IndexOf(LastN(front, capacity), last.id) == None
  {
    hide LastN, IndexOf;
    var kept, reports := LastN(front, capacity), front + [last];
    forall i | 0 <= i < |kept|
      ensures kept[i].id != last.id
    {
      assert kept[i] == reports[|front| - |kept| + i] && reports[|front|] == last;
    }
  }

  lemma NothingKept(capacity: nat)
    ensures LastN<Report>([], capacity) == []
  {
  }

  lemma PutKeepsDistinct(reports: seq<Report>, r: Report, capacity: nat)
    requires DistinctIds(reports)
    ensures DistinctIds(PutInto(reports, r, capacity))
  {
  }

  /** Whatever is put, duplicates included: IDs stay distinct, the store stays within
      its capacity, and the newest put can be found. */
  lemma {:induction false} PutsStayIndexed(reports: seq<Report>, capacity: nat)
    requires capacity > 0
    ensures var held := PutAll(reports, capacity);
      && DistinctIds(held) && |held| <= capacity
      && (reports != [] ==> Search(held, reports[|reports| - 1].id) == Some(reports[|reports| - 1]))
  {
    hide LastN;
    if reports != [] {
      var front, last := reports[..|reports| - 1], reports[|reports| - 1];
      PutsStayIndexed(front, capacity);
      PutKeepsDistinct(PutAll(front, capacity), last, capacity);
      PutIsFound(PutAll(front, capacity), last, capacity);
    }
  }

  lemma PutIsFound(reports: seq<Report>, r: Report, capacity: nat)
    requires capacity > 0 && DistinctIds(reports)
    ensures Search(PutInto(reports, r, capacity), r.id) == Some(r)
    ensures |reports| <= capacity ==> |PutInto(reports, r, capacity)| <= capacity
  {
    var after := PutInto(reports, r, capacity);
    PutKeepsDistinct(reports, r, capacity);
    var at := if IndexOf(reports, r.id).Some? then IndexOf(reports, r.id).value else |after| - 1;
    assert after[at] == r;
  }
}
