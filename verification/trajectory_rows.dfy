/** Which readings of a long history a report prints. */
module TrajectoryRows {
  import opened Common
  import opened Reports

  // ---- even spacing ----

  /** The i-th evenly spaced index, as integer division gives it. */
  function EvenIndex(n: nat, limit: nat, i: nat): nat
    requires n >= 1 && limit >= 2
  {
    i * (n - 1) / (limit - 1)
  }

  /** The widest step even spacing takes. */
  function Stride(n: nat, limit: nat): nat
    requires n >= 1 && limit >= 2
  {
    (n - 1 + limit - 2) / (limit - 1)
  }

  lemma DivBounds(a: nat, d: nat)
    requires d > 0
    ensures d * (a / d) <= a < d * (a / d) + d
  {
  }

  lemma ScaleUp(d: nat, a: int, b: int)
    requires a <= b
    ensures d * a <= d * b
  {
  }

  lemma QuotientFrom(a: nat, d: nat, q: int)
    requires d > 0
    requires d * q <= a
    ensures q <= a / d
  {
    DivBounds(a, d);
    if q > a / d {
      ScaleUp(d, a / d + 1, q);
    }
  }

  lemma QuotientTo(a: nat, d: nat, q: int)
    requires d > 0
    requires a < d * (q + 1)
    ensures a / d <= q
  {
    DivBounds(a, d);
    if a / d > q {
      ScaleUp(d, q + 1, a / d);
    }
  }

  lemma StepProducts(i: nat, m: nat, d: nat, q: nat, s: nat)
    ensures (i + 1) * m == i * m + m
    ensures d * (q + 1) == d * q + d
    ensures d * (q + s + 1) == d * q + d * s + d
  {
  }

  /** Adding m to a dividend moves its quotient by one to ceil(m / d), for d <= m. */
  lemma QuotientStep(a: nat, m: nat, d: nat)
    requires 0 < d <= m
    ensures 1 <= (a + m) / d - a / d <= (m + d - 1) / d
  {
    var q, s := a / d, (m + d - 1) / d;
    DivBounds(a, d);
    DivBounds(m + d - 1, d);
    StepProducts(0, m, d, q, s);
    QuotientFrom(a + m, d, q + 1);
    QuotientTo(a + m, d, q + s);
  }

  /** The i-th row's index is the last one not beyond the i-th part of the way. */
  lemma EvenIndexExactly(n: nat, limit: nat, i: nat)
    requires n >= 1 && limit >= 2
    ensures (limit - 1) * EvenIndex(n, limit, i) <= i * (n - 1) < (limit - 1) * EvenIndex(n, limit, i) + (limit - 1)
  {
    DivBounds(i * (n - 1), limit - 1);
  }

  /** Neighbouring even indices are at least one and at most a stride apart. */
  lemma EvenStep(n: nat, limit: nat, i: nat)
    requires 2 <= limit < n && i + 1 < limit
    ensures 1 <= EvenIndex(n, limit, i + 1) - EvenIndex(n, limit, i) <= Stride(n, limit)
  {
    StepProducts(i, n - 1, 0, 0, 0);
    QuotientStep(i * (n - 1), n - 1, limit - 1);
  }

  lemma EvenEnds(n: nat, limit: nat)
    requires n >= 1 && limit >= 2
    ensures EvenIndex(n, limit, 0) == 0
    ensures EvenIndex(n, limit, limit - 1) == n - 1
  {
    var m, d := n - 1, limit - 1;
    assert d * m == m * d;
    QuotientFrom(d * m, d, m);
    QuotientTo(d * m, d, m);
  }

  function EvenIndices(n: nat, limit: nat): (r: seq<int>)
    requires n >= 1 && limit >= 2
    ensures |r| == limit
    ensures forall i | 0 <= i < limit :: r[i] == EvenIndex(n, limit, i)
  {
    seq(limit, i requires 0 <= i < limit => EvenIndex(n, limit, i))
  }

  // ---- what a selection of rows must be ----

  predicate StrictlyIncreasing(s: seq<int>) {
    forall i, j | 0 <= i < j < |s| :: s[i] < s[j]
  }

  /** Neighbours at most g apart. */
  predicate GapsAtMost(s: seq<int>, g: int) {
    forall i | 0 <= i < |s| - 1 :: s[i + 1] - s[i] <= g
  }

  /** The first reading of the highest usage. */
  predicate IsPeak(points: seq<TrajectoryPoint>, p: nat) {
    && p < |points|
    && (forall i | 0 <= i < |points| :: points[i].usedBytes <= points[p].usedBytes)
    && (forall i | 0 <= i < p :: points[i].usedBytes < points[p].usedBytes)
  }

  /** Distance between two indices. */
  function Abs(n: int): nat {
    if n < 0 then -n else n
  }

  /** k is the interior row nearest to p, the earliest if two are as near. */
  predicate NearestInterior(s: seq<int>, k: nat, p: int) {
    && 0 < k < |s| - 1
    && (forall i | 0 < i < |s| - 1 :: Abs(s[k] - p) <= Abs(s[i] - p))
    && (forall i | 0 < i < k :: Abs(s[k] - p) < Abs(s[i] - p))
  }

  /** The selected indices: evenly spaced, with the peak in place of the interior
      row nearest to it when even spacing misses it. */
  ghost predicate Selects(indices: seq<int>, n: nat, limit: nat, p: nat)
    requires n >= 1 && limit >= 2
  {
    var even := EvenIndices(n, limit);
    if p in even then indices == even
    else exists k: nat :: 0 < k < limit - 1 && NearestInterior(even, k, p) && indices == even[k := p]
  }

  /** As above for three rows or more; of two, the second is the last reading and the
      first is the peak, unless that is the last reading too. */
  ghost predicate SelectsRows(indices: seq<int>, n: nat, limit: nat, p: nat)
    requires n >= 1 && limit >= 2
  {
    if limit == 2 then indices == [if p == n - 1 then 0 else p, n - 1] else Selects(indices, n, limit, p)
  }

  function Pick(points: seq<TrajectoryPoint>, indices: seq<int>): (rows: seq<TrajectoryPoint>)
    requires forall i | 0 <= i < |indices| :: 0 <= indices[i] < |points|
    ensures |rows| == |indices|
    ensures forall i | 0 <= i < |rows| :: rows[i] == points[indices[i]]
  {
    seq(|indices|, i requires 0 <= i < |indices| => points[indices[i]])
  }

  // ---- what a selection gives ----

  lemma {:induction false} EvenIncreasing(n: nat, limit: nat, i: nat, j: nat)
    requires 2 <= limit < n && i < j < limit
    ensures EvenIndex(n, limit, i) < EvenIndex(n, limit, j)
    decreases j
  {
    hide EvenIndex;
    EvenStep(n, limit, j - 1);
    if i < j - 1 {
      EvenIncreasing(n, limit, i, j - 1);
    }
  }

  lemma EvenSpread(n: nat, limit: nat)
    requires 2 <= limit < n
    ensures var even := EvenIndices(n, limit);
      && StrictlyIncreasing(even) && GapsAtMost(even, Stride(n, limit))
      && even[0] == 0 && even[limit - 1] == n - 1
      && (forall i | 0 <= i < limit :: 0 <= even[i] < n)
  {
    hide EvenIndex, Stride;
    var even := EvenIndices(n, limit);
    EvenEnds(n, limit);
    forall i, j | 0 <= i < j < limit
      ensures even[i] < even[j]
    {
      EvenIncreasing(n, limit, i, j);
    }
    forall i | 0 <= i < limit - 1
      ensures even[i + 1] - even[i] <= Stride(n, limit)
    {
      EvenStep(n, limit, i);
    }
    assert forall i | 0 <= i < limit :: i > 0 ==> even[0] < even[i];
    assert forall i | 0 <= i < limit :: i < limit - 1 ==> even[i] < even[limit - 1];
  }

  /** The even rows on either side of an index they miss. */
  lemma {:induction false} Bracket(s: seq<int>, p: int, m: nat) returns (j: nat)
    requires StrictlyIncreasing(s) && 0 < m < |s|
    requires s[0] < p < s[m] && p !in s
    ensures j < m && s[j] < p < s[j + 1]
  {
    if m == 1 || s[m - 1] < p {
      j := m - 1;
    } else {
      j := Bracket(s, p, m - 1);
    }
  }

  /** The nearest interior row is one of the two around the peak. */
  lemma NearestIsNeighbour(s: seq<int>, k: nat, p: int, j: nat)
    requires StrictlyIncreasing(s) && |s| >= 3
    requires j + 1 < |s| && s[j] < p < s[j + 1]
    requires NearestInterior(s, k, p)
    ensures k == j || k == j + 1
  {
    if j == 0 {
      assert Abs(s[k] - p) <= Abs(s[1] - p);
    } else {
      assert Abs(s[k] - p) <= Abs(s[j] - p);
      if j + 1 < |s| - 1 {
        assert Abs(s[k] - p) <= Abs(s[j + 1] - p);
      }
    }
  }

  /** Every selection of limit >= 3 rows from more than that many readings keeps both
      ends and the peak, in strictly increasing order, and never leaves a gap of two
      full strides. */
  lemma SelectionSpread(indices: seq<int>, n: nat, limit: nat, p: nat)
    requires 3 <= limit < n && p < n
    requires Selects(indices, n, limit, p)
    ensures |indices| == limit
    ensures StrictlyIncreasing(indices)
    ensures indices[0] == 0 && indices[limit - 1] == n - 1 && p in indices
    ensures Stride(n, limit) >= 1
    ensures GapsAtMost(indices, if p in EvenIndices(n, limit) then Stride(n, limit) else 2 * Stride(n, limit) - 1)
  {
    hide EvenIndex, Stride, NearestInterior, EvenIndices;
    var even, g := EvenIndices(n, limit), Stride(n, limit);
    EvenLength(n, limit);
    EvenSpread(n, limit);
    assert even[0] < even[1] && even[1] - even[0] <= g;
    if p !in even {
      var k: nat :| 0 < k < limit - 1 && NearestInterior(even, k, p) && indices == even[k := p];
      assert even[0] in even && even[limit - 1] in even;
      var j := Bracket(even, p, limit - 1);
      NearestIsNeighbour(even, k, p, j);
      SubstituteSpread(even, k, p, j, g);
    }
  }

  /** The first and last readings are said never to be displaced: both stay exactly
      when there are three rows, or the peak is one of them. */
  lemma EndsKeptExactly(indices: seq<int>, n: nat, limit: nat, p: nat)
    requires 2 <= limit < n && p < n
    requires SelectsRows(indices, n, limit, p)
    ensures |indices| == limit && n - 1 in indices
    ensures 0 in indices && n - 1 in indices <==> limit >= 3 || p == 0 || p == n - 1
  {
    hide Selects;
    if limit >= 3 {
      SelectionSpread(indices, n, limit, p);
      assert indices[0] in indices && indices[limit - 1] in indices;
    } else {
      assert indices[1] in indices;
      assert indices[0] in indices;
    }
  }

  /** Two rows of three readings with the peak between: the first reading goes. */
  lemma TwoRowsLoseTheFirst()
    ensures var points := seq(3, i => TrajectoryPoint(i, if i == 1 then 9 else 5, 0, 0.0, 0.0));
      && IsPeak(points, 1)
      && SelectsRows([1, 2], 3, 2, 1)
      && Pick(points, [1, 2]) == points[1..]
      && points[0] !in points[1..]
  {
  }

  /** An interior row may give way to an index strictly between it and a neighbour. */
  lemma SubstituteSpread(s: seq<int>, k: nat, p: int, j: nat, g: int)
    requires StrictlyIncreasing(s) && GapsAtMost(s, g)
    requires 0 < k < |s| - 1 && (k == j || k == j + 1) && j + 1 < |s|
    requires s[j] < p < s[j + 1]
    ensures StrictlyIncreasing(s[k := p])
    ensures GapsAtMost(s[k := p], 2 * g - 1)
    ensures p in s[k := p]
  {
    var r := s[k := p];
    assert r[k] == p;
    assert s[j + 1] - s[j] <= g;
    if k == j {
      assert s[j] - s[j - 1] <= g;
    } else {
      assert s[j + 2] - s[j + 1] <= g;
    }
  }

  lemma EvenLength(n: nat, limit: nat)
    requires n >= 1 && limit >= 2
    ensures |EvenIndices(n, limit)| == limit
  {
  }

  // ---- sorting ----

  predicate Ascending(s: seq<int>) {
    forall i, j | 0 <= i < j < |s| :: s[i] <= s[j]
  }

  function InsertInt(x: int, s: seq<int>): seq<int> {
    if s == [] || x <= s[0] then [x] + s else [s[0]] + InsertInt(x, s[1..])
  }

  /** slices.Sort. */
  function SortInts(s: seq<int>): seq<int> {
    if s == [] then [] else InsertInt(s[0], SortInts(s[1..]))
  }

  lemma {:induction false} SortedStays(s: seq<int>)
    requires Ascending(s)
    ensures SortInts(s) == s
  {
    if s != [] {
      SortedStays(s[1..]);
      assert s == [s[0]] + s[1..];
      assert |s| > 1 ==> s[0] <= s[1];
    }
  }

  // ---- the operations ----

  /** Even spacing alone: one row for each even index. */
  method Downsample(points: seq<TrajectoryPoint>, limit: int) returns (rows: seq<TrajectoryPoint>)
    requires limit == 1 ==> |points| <= 1
    ensures limit <= 0 || |points| <= limit ==> rows == points
    ensures 2 <= limit < |points| ==>
              && (forall i | 0 <= i < limit :: 0 <= EvenIndices(|points|, limit)[i] < |points|)
              && rows == Pick(points, EvenIndices(|points|, limit))
  {
    if limit <= 0 || |points| <= limit {
      return points;
    }
    EvenSpread(|points|, limit);
    rows := [];
    for i := 0 to limit
      invariant |rows| == i
      invariant forall j | 0 <= j < i :: rows[j] == points[EvenIndices(|points|, limit)[j]]
    {
      var index := i * (|points| - 1) / (limit - 1);
      assert index == EvenIndices(|points|, limit)[i];
      rows := rows + [points[index]];
    }
  }

  method FindPeak(points: seq<TrajectoryPoint>) returns (peak: nat)
    requires points != []
    ensures IsPeak(points, peak)
  {
    peak := 0;
    for i := 0 to |points|
      invariant peak < |points|
      invariant peak == 0 || peak < i
      invariant forall j | 0 <= j < i :: points[j].usedBytes <= points[peak].usedBytes
      invariant forall j | 0 <= j < peak :: points[j].usedBytes < points[peak].usedBytes
    {
      if points[i].usedBytes > points[peak].usedBytes {
        peak := i;
      }
    }
  }

  /** The earliest of the rows nearest to an index. */
  method FindNearest(indices: seq<int>, p: int) returns (nearest: nat)
    requires indices != []
    ensures nearest < |indices|
    ensures forall i | 0 <= i < |indices| :: Abs(indices[nearest] - p) <= Abs(indices[i] - p)
    ensures forall i | 0 <= i < nearest :: Abs(indices[nearest] - p) < Abs(indices[i] - p)
  {
    nearest := 0;
    for i := 0 to |indices|
      invariant nearest < |indices|
      invariant nearest == 0 || nearest < i
      invariant forall j | 0 <= j < i :: Abs(indices[nearest] - p) <= Abs(indices[j] - p)
      invariant forall j | 0 <= j < nearest :: Abs(indices[nearest] - p) < Abs(indices[j] - p)
    {
      if Abs(indices[i] - p) < Abs(indices[nearest] - p) {
        nearest := i;
      }
    }
  }

  /** Moving the choice off an end still leaves the interior row nearest to p. */
  lemma AnchoredNearest(s: seq<int>, nearest: nat, k: nat, p: int)
    requires StrictlyIncreasing(s) && |s| >= 3 && s[0] < p < s[|s| - 1] && p !in s
    requires nearest < |s|
    requires forall i | 0 <= i < |s| :: Abs(s[nearest] - p) <= Abs(s[i] - p)
    requires forall i | 0 <= i < nearest :: Abs(s[nearest] - p) < Abs(s[i] - p)
    requires k == if nearest == 0 then 1 else if nearest == |s| - 1 then |s| - 2 else nearest
    ensures NearestInterior(s, k, p)
  {
    var n := |s|;
    if nearest == 0 {
      assert p < s[1] by { assert Abs(s[0] - p) <= Abs(s[1] - p); assert s[1] in s; }
      assert forall i | 1 < i < n :: s[1] < s[i];
    } else if nearest == n - 1 {
      assert s[n - 2] < p by { assert Abs(s[n - 1] - p) < Abs(s[n - 2] - p); assert s[n - 2] in s; }
      assert forall i | 0 <= i < n - 2 :: s[i] < s[n - 2];
    }
  }

  /** Even spacing with the peak put in, read off as rows. A limit of one would
      divide by zero. */
  method TrajectoryRows(points: seq<TrajectoryPoint>, limit: int) returns (rows: seq<TrajectoryPoint>)
    requires limit == 1 ==> |points| <= 1
    ensures limit <= 0 || |points| <= limit ==> rows == points
    ensures 2 <= limit < |points| ==> exists p: nat, indices: seq<int> ::
              && IsPeak(points, p) && SelectsRows(indices, |points|, limit, p)
              && (forall i | 0 <= i < |indices| :: 0 <= indices[i] < |points|)
              && rows == Pick(points, indices)
  {
    if limit <= 0 || |points| <= limit {
      return points;
    }
    var peak := FindPeak(points);
    var indices := EvenRows(|points|, limit);
    indices := KeepPeak(indices, |points|, limit, peak);
    rows := [];
    for i := 0 to |indices|
      invariant |rows| == i
      invariant forall j | 0 <= j < i :: rows[j] == points[indices[j]]
    {
      rows := rows + [points[indices[i]]];
    }
    assert rows == Pick(points, indices);
  }

  /** Puts the peak in place of the interior row nearest to it, unless it is among
      the rows already. */
  method KeepPeak(even: seq<int>, n: nat, limit: nat, peak: nat) returns (indices: seq<int>)
    requires 2 <= limit < n && even == EvenIndices(n, limit) && peak < n
    ensures |indices| == limit && forall i | 0 <= i < limit :: 0 <= indices[i] < n
    ensures SelectsRows(indices, n, limit, peak)
  {
    hide EvenIndices, StrictlyIncreasing, Selects, SortInts;
    EvenLength(n, limit);
    indices := even;
    if peak in indices {
      UnchangedRows(n, limit, peak);
      return;
    }
    var nearest := FindNearest(indices, peak);
    ghost var unanchored := nearest;
    // The first and last readings anchor the window.
    if nearest == 0 {
      nearest := 1;
    }
    if nearest == |indices| - 1 {
      nearest := |indices| - 2;
    }
    indices := indices[nearest := peak];
    if limit >= 3 {
      SubstitutedRows(n, limit, unanchored, nearest, peak);
    } else {
      SubstitutedPair(n, nearest, peak);
    }
    SortedStays(indices);
    indices := SortInts(indices);
  }

  lemma UnchangedRows(n: nat, limit: nat, p: nat)
    requires 2 <= limit < n && p in EvenIndices(n, limit)
    ensures var even := EvenIndices(n, limit);
      && (forall i | 0 <= i < limit :: 0 <= even[i] < n)
      && Selects(even, n, limit, p)
      && (limit == 2 ==> even == [if p == n - 1 then 0 else p, n - 1])
  {
    hide EvenIndex;
    EvenSpread(n, limit);
  }

  /** Three rows or more: the repaired choice is the nearest interior row, and the
      rows stay in order. */
  lemma SubstitutedRows(n: nat, limit: nat, nearest: nat, k: nat, p: nat)
    requires 3 <= limit < n && p < n
    requires var even := EvenIndices(n, limit);
      && p !in even && nearest < limit
      && (forall i | 0 <= i < limit :: Abs(even[nearest] - p) <= Abs(even[i] - p))
      && (forall i | 0 <= i < nearest :: Abs(even[nearest] - p) < Abs(even[i] - p))
    requires k == if nearest == 0 then 1 else if nearest == limit - 1 then limit - 2 else nearest
    ensures var indices := EvenIndices(n, limit)[k := p];
      && Selects(indices, n, limit, p) && Ascending(indices)
      && (forall i | 0 <= i < limit :: 0 <= indices[i] < n)
  {
    hide EvenIndex, Stride, NearestInterior, GapsAtMost;
    var even := EvenIndices(n, limit);
    EvenSpread(n, limit);
    assert even[0] in even && even[limit - 1] in even;
    AnchoredNearest(even, nearest, k, p);
    assert NearestInterior(even, k, p);
    SelectionSpread(even[k := p], n, limit, p);
  }

  /** Two rows: both repairs apply in turn, and the first row gives way. */
  lemma SubstitutedPair(n: nat, k: nat, p: nat)
    requires 2 < n && p < n && p !in EvenIndices(n, 2) && k == 0
    ensures EvenIndices(n, 2)[k := p] == [p, n - 1] && Ascending([p, n - 1]) && p != n - 1
  {
    hide EvenIndex;
    EvenSpread(n, 2);
    var even := EvenIndices(n, 2);
    assert even[1] in even;
  }

  /** The evenly spaced indices, one per row. */
  method EvenRows(n: nat, limit: nat) returns (indices: seq<int>)
    requires n >= 1 && limit >= 2
    ensures indices == EvenIndices(n, limit)
  {
    indices := [];
    for i := 0 to limit
      invariant |indices| == i
      invariant forall j | 0 <= j < i :: indices[j] == EvenIndices(n, limit)[j]
    {
      indices := indices + [i * (n - 1) / (limit - 1)];
    }
  }
}
