/** Sums and dot products of real vectors, with the bilinear laws a least-squares
    argument needs. Products go through Mul so that each law is one small step. */
module RealVectors {

  function Mul(u: real, v: real): real {
    u * v
  }

  lemma MulPositive(u: real, v: real)
    requires u > 0.0 && v > 0.0
    ensures Mul(u, v) > 0.0
  {
    assert u * v > 0.0;
  }

  lemma SquareSign(z: real)
    ensures Mul(z, z) >= 0.0
    ensures Mul(z, z) == 0.0 <==> z == 0.0
  {
    if z > 0.0 {
      MulPositive(z, z);
    } else if z < 0.0 {
      MulPositive(-z, -z);
      assert Mul(-z, -z) == Mul(z, z);
    }
  }

  lemma MulDistributes(u: real, c: real, v: real, w: real)
    ensures Mul(u + Mul(c, v), w) == Mul(u, w) + Mul(c, Mul(v, w))
  {
  }

  lemma MulSum(c: real, a: real, b: real)
    ensures Mul(c, a + b) == Mul(c, a) + Mul(c, b)
  {
  }

  lemma MulDivide(n: real, s: real)
    requires n != 0.0
    ensures Mul(n, s / n) == s
    ensures Mul(n, s) / n == s
  {
  }

  lemma MulTwice(c: real, n: real)
    ensures Mul(-c, Mul(-c, n)) == Mul(n, Mul(c, c))
    ensures Mul(-c, 0.0) == 0.0
    ensures Mul(n, 1.0) == n
  {
  }

  lemma FractionBounds(part: real, whole: real)
    requires 0.0 <= part <= whole && whole != 0.0
    ensures 0.0 <= part / whole <= 1.0
    ensures part / whole == 0.0 <==> part == 0.0
    ensures part / whole == 1.0 <==> part == whole
    ensures part / whole * whole == part
  {
    var q := part / whole;
    assert q * whole == part;
  }

  /** The sum of the first n entries. */
  function Sum(v: seq<real>, n: nat): real
    requires n <= |v|
  {
    if n == 0 then 0.0 else Sum(v, n - 1) + v[n - 1]
  }

  /** The dot product of the first n entries. */
  function Dot(u: seq<real>, v: seq<real>, n: nat): real
    requires n <= |u| && n <= |v|
  {
    if n == 0 then 0.0 else Dot(u, v, n - 1) + Mul(u[n - 1], v[n - 1])
  }

  function Mean(v: seq<real>): real
    requires |v| > 0
  {
    Sum(v, |v|) / |v| as real
  }

  /** u + c*v, entry by entry. */
  function AddScaled(u: seq<real>, c: real, v: seq<real>): (r: seq<real>)
    requires |u| == |v|
    ensures |r| == |u|
    ensures forall i | 0 <= i < |r| :: r[i] == u[i] + Mul(c, v[i])
  {
    seq(|u|, i requires 0 <= i < |u| => u[i] + Mul(c, v[i]))
  }

  function Ones(n: nat): (r: seq<real>)
    ensures |r| == n
    ensures forall i | 0 <= i < n :: r[i] == 1.0
  {
    seq(n, i => 1.0)
  }

  /** v with m subtracted from every entry. */
  function Centre(v: seq<real>, m: real): (r: seq<real>)
    ensures |r| == |v|
    ensures forall i | 0 <= i < |r| :: r[i] == v[i] - m
  {
    seq(|v|, i requires 0 <= i < |v| => v[i] - m)
  }

  lemma {:induction false} DotSymmetric(u: seq<real>, v: seq<real>, n: nat)
    requires n <= |u| && n <= |v|
    ensures Dot(u, v, n) == Dot(v, u, n)
  {
    if n > 0 {
      DotSymmetric(u, v, n - 1);
      assert Mul(u[n - 1], v[n - 1]) == Mul(v[n - 1], u[n - 1]);
    }
  }

  lemma {:induction false} DotLinear(u: seq<real>, c: real, v: seq<real>, w: seq<real>, n: nat)
    requires |u| == |v| == |w| && n <= |u|
    ensures Dot(AddScaled(u, c, v), w, n) == Dot(u, w, n) + Mul(c, Dot(v, w, n))
  {
    if n > 0 {
      DotLinear(u, c, v, w, n - 1);
      MulDistributes(u[n - 1], c, v[n - 1], w[n - 1]);
      MulSum(c, Dot(v, w, n - 1), Mul(v[n - 1], w[n - 1]));
    }
  }

  lemma {:induction false} DotOnes(v: seq<real>, n: nat)
    requires n <= |v|
    ensures Dot(v, Ones(|v|), n) == Sum(v, n)
  {
    if n > 0 {
      DotOnes(v, n - 1);
    }
  }

  lemma {:induction false} SumConstant(v: seq<real>, k: real, n: nat)
    requires n <= |v|
    requires forall i | 0 <= i < n :: v[i] == k
    ensures Sum(v, n) == Mul(n as real, k)
  {
    if n > 0 {
      SumConstant(v, k, n - 1);
      assert Mul((n - 1) as real + 1.0, k) == Mul((n - 1) as real, k) + k;
    }
  }

  lemma {:induction false} SumCentre(v: seq<real>, m: real, n: nat)
    requires n <= |v|
    ensures Sum(Centre(v, m), n) == Sum(v, n) - Mul(n as real, m)
  {
    if n > 0 {
      SumCentre(v, m, n - 1);
      assert Mul((n - 1) as real + 1.0, m) == Mul((n - 1) as real, m) + m;
    }
  }

  /** Deviations from the mean cancel. */
  lemma CentredAtMean(v: seq<real>)
    requires |v| > 0
    ensures Sum(Centre(v, Mean(v)), |v|) == 0.0
  {
    SumCentre(v, Mean(v), |v|);
    MulDivide(|v| as real, Sum(v, |v|));
  }

  /** A vector's dot product with itself is non-negative, and zero only for the
      zero vector. */
  lemma {:induction false} SelfDot(v: seq<real>, n: nat)
    requires n <= |v|
    ensures Dot(v, v, n) >= 0.0
    ensures Dot(v, v, n) == 0.0 <==> forall i | 0 <= i < n :: v[i] == 0.0
  {
    if n > 0 {
      SelfDot(v, n - 1);
      SquareSign(v[n - 1]);
    }
  }

  /** Entries of agreeing sign give a non-negative dot product. */
  lemma {:induction false} DotAgreeing(u: seq<real>, v: seq<real>, n: nat)
    requires n <= |u| && n <= |v|
    requires forall i | 0 <= i < n :: (u[i] >= 0.0 && v[i] >= 0.0) || (u[i] <= 0.0 && v[i] <= 0.0)
    ensures Dot(u, v, n) >= 0.0
  {
    if n > 0 {
      DotAgreeing(u, v, n - 1);
      var s, t := u[n - 1], v[n - 1];
      if s > 0.0 && t > 0.0 {
        MulPositive(s, t);
      } else if s < 0.0 && t < 0.0 {
        MulPositive(-s, -t);
        assert Mul(-s, -t) == Mul(s, t);
      }
    }
  }

  /** Entries of opposite sign give a dot product that is not positive. */
  lemma DotOpposing(u: seq<real>, v: seq<real>, n: nat)
    requires n <= |u| == |v|
    requires forall i | 0 <= i < n :: (u[i] >= 0.0 && v[i] <= 0.0) || (u[i] <= 0.0 && v[i] >= 0.0)
    ensures Dot(u, v, n) <= 0.0
  {
    var mirrored := AddScaled(v, -2.0, v);
    forall i | 0 <= i < n
      ensures mirrored[i] == -v[i]
    {
      assert Mul(-2.0, v[i]) == -2.0 * v[i];
    }
    DotAgreeing(u, mirrored, n);
    DotSymmetric(u, mirrored, n);
    DotLinear(v, -2.0, v, u, n);
    DotSymmetric(v, u, n);
    assert Mul(-2.0, Dot(u, v, n)) == -2.0 * Dot(u, v, n);
  }

  /** Against a vector that sums to zero, adding a constant changes no dot product. */
  lemma DotShift(u: seq<real>, v: seq<real>, k: real)
    requires |u| == |v| && Sum(u, |u|) == 0.0
    ensures Dot(u, Centre(v, k), |u|) == Dot(u, v, |u|)
  {
    var n := |u|;
    assert Centre(v, k) == AddScaled(v, -k, Ones(n));
    DotSymmetric(u, Centre(v, k), n);
    DotLinear(v, -k, Ones(n), u, n);
    DotSymmetric(Ones(n), u, n);
    DotOnes(u, n);
    DotSymmetric(v, u, n);
  }
}
