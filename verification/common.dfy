/** Types and small functions shared by every module: options, Go's integer
    widths, Go's clock arithmetic, and "the last k elements of a sequence". */
module Common {

  datatype Option<+T> = None | Some(value: T)

  const TWO_TO_63: int := 0x8000_0000_0000_0000
  const TWO_TO_64: int := 0x1_0000_0000_0000_0000

  /** Go's uint64. */
  type u64 = n: int | 0 <= n < 0x1_0000_0000_0000_0000

  /** The largest time.Duration. */
  const MAX_DURATION: int := TWO_TO_63 - 1

  /** One second, in the nanoseconds a time.Duration counts. */
  const SECOND: int := 1_000_000_000

  /** Go's unsigned increment wraps around. */
  function Increment(n: u64): u64 {
    (n + 1) % TWO_TO_64
  }

  /** time.Time.Sub: instants are nanoseconds, and a difference that does not
      fit a Duration saturates. */
  function TimeSub(t: int, u: int): (d: int)
    ensures -TWO_TO_63 <= d <= MAX_DURATION
    ensures d == 0 <==> t == u
    ensures -TWO_TO_63 <= t - u <= MAX_DURATION ==> d == t - u
  {
    if t - u > MAX_DURATION then MAX_DURATION
    else if t - u < -TWO_TO_63 then -TWO_TO_63
    else t - u
  }

  /** The two ends a difference stops at. */
  lemma TimeSubSaturates(t: int, u: int)
    ensures t - u > 0x7FFF_FFFF_FFFF_FFFF ==> TimeSub(t, u) == 0x7FFF_FFFF_FFFF_FFFF
    ensures t - u < -0x8000_0000_0000_0000 ==> TimeSub(t, u) == -0x8000_0000_0000_0000
  {
  }

  /** Saturation never changes how a difference compares with a positive Duration. */
  lemma TimeSubReaches(t: int, u: int, bound: int)
    requires 0 < bound <= MAX_DURATION
    ensures TimeSub(t, u) >= bound <==> t - u >= bound
  {
  }

  /** The last k elements, or all of them when there are fewer. */
  function LastN<T>(s: seq<T>, k: nat): (r: seq<T>)
    ensures |r| == if |s| < k then |s| else k
    ensures forall i | 0 <= i < |r| :: r[i] == s[|s| - |r| + i]
  {
    if |s| <= k then s else s[|s| - k..]
  }

  /** What lies in front of a full window does not matter. */
  lemma LastNIgnoresFront<T>(front: seq<T>, s: seq<T>, k: nat)
    requires |s| >= k
    ensures LastN(front + s, k) == LastN(s, k)
  {
    var whole := front + s;
    assert LastN(whole, k) == whole[|whole| - k..];
    assert whole[|whole| - k..] == s[|s| - k..];
    assert LastN(s, k) == s[|s| - k..];
  }

  lemma LastNIsSuffix<T>(s: seq<T>, k: nat)
    requires |s| >= k
    ensures s == s[..|s| - k] + LastN(s, k)
  {
  }

  lemma Reassociate<T>(a: seq<T>, b: seq<T>, c: seq<T>)
    ensures a + (b + c) == a + b + c
  {
  }

  /** Cutting to the last k before appending loses nothing that the final cut
      would keep. */
  lemma LastNAppend<T>(s: seq<T>, t: seq<T>, k: nat)
    ensures LastN(LastN(s, k) + t, k) == LastN(s + t, k)
  {
    if |s| > k {
      hide LastN;
      var front, window := s[..|s| - k], LastN(s, k);
      LastNIsSuffix(s, k);
      Reassociate(front, window, t);
      LastNIgnoresFront(front, window + t, k);
    }
  }

  /** Appending to a window that already fits. */
  lemma LastNSnoc<T>(s: seq<T>, x: T, k: nat)
    requires |s| <= k && k > 0
    ensures LastN(s + [x], k) == (if |s| < k then s else s[1..]) + [x]
  {
    if |s| == k {
      assert LastN(s + [x], k) == (s + [x])[1..] == s[1..] + [x];
    }
  }

  /** The only multiple of m within m of zero. */
  lemma MultipleInRange(m: int, k: int)
    requires m > 0 && -m < m * k < m
    ensures k == 0
  {
  }

  lemma DivMod(n: nat, d: nat)
    requires d > 0
    ensures n == d * (n / d) + n % d && n % d < d
  {
  }

  /** Quotient and remainder are what any such decomposition says. */
  lemma QuotientUnique(n: nat, d: nat, q: nat, r: nat)
    requires d > 0 && n == d * q + r && r < d
    ensures n / d == q && n % d == r
  {
    DivMod(n, d);
    assert d * (n / d - q) == d * (n / d) - d * q;
    MultipleInRange(d, n / d - q);
  }

  lemma MapsEqual<K, V>(m: map<K, V>, n: map<K, V>)
    requires m.Keys == n.Keys
    requires forall k | k in m :: m[k] == n[k]
    ensures m == n
  {
  }
}
