/** When report IDs sort in the order the reports were made. */
module ReportOrder {
  import opened Common
  import opened Calendar
  import opened ReportIds

  /** The order of strings: the first difference decides, and a proper prefix comes
      first. */
  predicate Less(a: string, b: string) {
    b != "" && (a == "" || a[0] < b[0] || (a[0] == b[0] && Less(a[1..], b[1..])))
  }

  function Pow10(k: nat): (p: nat)
    ensures p > 0
  {
    if k == 0 then 1 else 10 * Pow10(k - 1)
  }

  // ---- the order itself ----

  lemma {:induction false} LessIrreflexive(a: string)
    ensures !Less(a, a)
  {
    if a != "" {
      LessIrreflexive(a[1..]);
    }
  }

  lemma {:induction false} LessAsymmetric(a: string, b: string)
    requires Less(a, b)
    ensures !Less(b, a)
  {
    if a != "" && a[0] == b[0] {
      LessAsymmetric(a[1..], b[1..]);
    }
  }

  /** A common beginning decides nothing. */
  lemma {:induction false} LessAfterPrefix(p: string, a: string, b: string)
    ensures Less(p + a, p + b) <==> Less(a, b)
  {
    if p == "" {
      assert p + a == a && p + b == b;
    } else {
      LessAfterPrefix(p[1..], a, b);
      assert (p + a)[1..] == p[1..] + a && (p + b)[1..] == p[1..] + b;
    }
  }

  /** Beginnings of equal length that differ decide everything. */
  lemma {:induction false} LessByPrefix(p: string, q: string, a: string, b: string)
    requires |p| == |q| && p != q
    ensures Less(p + a, q + b) <==> Less(p, q)
  {
    assert (p + a)[0] == p[0] && (q + b)[0] == q[0];
    if p[0] == q[0] {
      assert p == [p[0]] + p[1..] && q == [q[0]] + q[1..];
      LessByPrefix(p[1..], q[1..], a, b);
      assert (p + a)[1..] == p[1..] + a && (q + b)[1..] == q[1..] + b;
    }
  }

  /** A string against a longer one: compare with its beginning, ties going to the
      shorter. */
  lemma {:induction false} LessThanExtended(a: string, b: string, c: char)
    requires |a| <= |b|
    ensures Less(a, b + [c]) <==> Less(a, b) || a == b
  {
    if a == "" {
      assert b != "" || a == b;
    } else {
      assert (b + [c])[0] == b[0] && (b + [c])[1..] == b[1..] + [c];
      LessThanExtended(a[1..], b[1..], c);
      assert a == [a[0]] + a[1..] && b == [b[0]] + b[1..];
    }
  }

  // ---- decimals ----

  lemma {:induction false} LongerIsNotSmaller(n: nat, m: nat)
    requires n <= m
    ensures |Decimal(n)| <= |Decimal(m)|
  {
    if n >= 10 {
      LongerIsNotSmaller(n / 10, m / 10);
    }
  }

  /** Decimals of equal length sort as their numbers do. */
  lemma {:induction false} EqualLengthSorts(n: nat, m: nat)
    requires n < m && |Decimal(n)| == |Decimal(m)|
    ensures Less(Decimal(n), Decimal(m))
  {
    if m < 10 {
      SingleDigits(n, m);
    } else {
      var p, q := Decimal(n / 10), Decimal(m / 10);
      var x, y := Digit(n % 10), Digit(m % 10);
      assert n >= 10;
      if n / 10 == m / 10 {
        assert n % 10 < m % 10;
        LessAfterPrefix(p, [x], [y]);
        assert Less([x], [y]);
      } else {
        EqualLengthSorts(n / 10, m / 10);
        LessIrreflexive(p);
        LessByPrefix(p, q, [x], [y]);
      }
    }
  }

  lemma SingleDigits(n: nat, m: nat)
    requires n < m < 10
    ensures Less(Decimal(n), Decimal(m))
  {
    assert Decimal(n) == [Digit(n)] && Decimal(m) == [Digit(m)];
  }

  lemma DecimalsDiffer(n: nat, m: nat)
    requires n != m
    ensures Decimal(n) != Decimal(m)
  {
    DecimalRoundTrip(n);
    DecimalRoundTrip(m);
  }

  lemma ScaledBelow(n: nat, m: nat, p: nat)
    ensures n * (10 * p) <= m <==> n * p <= m / 10
  {
    assert n * (10 * p) == 10 * (n * p);
  }

  /** The decimal of a smaller number sorts first exactly when that number, padded
      with zeros to the length of the larger, does not exceed it. */
  lemma {:induction false} DecimalsSortExactlyWhen(n: nat, m: nat)
    requires n < m
    ensures |Decimal(n)| <= |Decimal(m)|
    ensures Less(Decimal(n), Decimal(m)) <==> n * Pow10(|Decimal(m)| - |Decimal(n)|) <= m
  {
    LongerIsNotSmaller(n, m);
    var k := |Decimal(m)| - |Decimal(n)|;
    if k == 0 {
      EqualLengthSorts(n, m);
    } else {
      assert m >= 10;
      var q := m / 10;
      LessThanExtended(Decimal(n), Decimal(q), Digit(m % 10));
      ScaledBelow(n, m, Pow10(k - 1));
      if n < q {
        DecimalsSortExactlyWhen(n, q);
        DecimalsDiffer(n, q);
      } else if n > q {
        LongerIsNotSmaller(q, n);
        EqualLengthSorts(q, n);
        LessAsymmetric(Decimal(q), Decimal(n));
        DecimalsDiffer(n, q);
      }
    }
  }

  lemma {:induction false} LessTotal(a: string, b: string)
    ensures Less(a, b) || a == b || Less(b, a)
  {
    if a != "" && b != "" {
      LessTotal(a[1..], b[1..]);
      assert a == [a[0]] + a[1..] && b == [b[0]] + b[1..];
    }
  }

  /** Pads the shorter of two numbers with zeros and compares; a tie goes to the one
      that was shorter. */
  predicate PaddedFirst(n: nat, m: nat) {
    var d := |Decimal(m)| - |Decimal(n)|;
    n != m && if d >= 0 then n * Pow10(d) <= m else n < m * Pow10(-d)
  }

  lemma DecimalsSort(n: nat, m: nat)
    ensures Less(Decimal(n), Decimal(m)) <==> PaddedFirst(n, m)
  {
    hide Less, Decimal;
    if n < m {
      DecimalsSortExactlyWhen(n, m);
    } else if n > m {
      DecimalsSortExactlyWhen(m, n);
      DecimalsDiffer(n, m);
      LessTotal(Decimal(n), Decimal(m));
      if Less(Decimal(n), Decimal(m)) {
        LessAsymmetric(Decimal(n), Decimal(m));
      }
    } else {
      LessIrreflexive(Decimal(n));
    }
  }

  // ---- report IDs ----

  /** Two IDs made in the same second, the first with the smaller number, sort in
      that order exactly when the smaller number, zero-padded to the other's length,
      does not exceed it. */
  lemma IdsSortExactlyWhen(stamp: string, n: nat, m: nat)
    requires n < m
    ensures |Decimal(n)| <= |Decimal(m)|
    ensures Less(ReportId(stamp, n), ReportId(stamp, m)) <==> n * Pow10(|Decimal(m)| - |Decimal(n)|) <= m
  {
    DecimalsSortExactlyWhen(n, m);
    LessAfterPrefix(stamp + "-", Decimal(n), Decimal(m));
  }

  lemma IdsOfOneSecond(stamp: string, n: nat, m: nat)
    ensures Less(ReportId(stamp, n), ReportId(stamp, m)) <==> PaddedFirst(n, m)
  {
    hide PaddedFirst;
    DecimalsSort(n, m);
    LessAfterPrefix(stamp + "-", Decimal(n), Decimal(m));
  }

  lemma IdParts(stamp: string, n: nat)
    ensures ReportId(stamp, n) == stamp + ("-" + Decimal(n))
  {
    hide Decimal;
    Reassociate(stamp, "-", Decimal(n));
  }

  /** Timestamps of one width decide first, whatever the numbers. */
  lemma StampsDecideFirst(stamp: string, n: nat, stamp': string, n': nat)
    requires |stamp| == |stamp'| && stamp != stamp'
    ensures Less(ReportId(stamp, n), ReportId(stamp', n')) <==> Less(stamp, stamp')
  {
    hide ReportId, Decimal, Less;
    IdParts(stamp, n);
    IdParts(stamp', n');
    LessByPrefix(stamp, stamp', "-" + Decimal(n), "-" + Decimal(n'));
  }

  /** Any padding at all takes a number beyond its successor. */
  lemma PaddingOvershoots(n: nat, k: nat)
    requires n > 0 && k > 0
    ensures n * Pow10(k) > n + 1
  {
    var p := Pow10(k - 1);
    assert n * p >= n;
    assert n * (10 * p) == 10 * (n * p);
  }

  /** Consecutive reports of one second sort in order exactly when their numbers have
      equally many digits: each new digit breaks the order once. */
  lemma NeighboursSortExactlyWhen(stamp: string, n: nat)
    requires n > 0
    ensures Less(ReportId(stamp, n), ReportId(stamp, n + 1)) <==> |Decimal(n)| == |Decimal(n + 1)|
  {
    hide ReportId, Decimal, Less;
    IdsSortExactlyWhen(stamp, n, n + 1);
    var k := |Decimal(n + 1)| - |Decimal(n)|;
    if k > 0 {
      PaddingOvershoots(n, k);
    }
  }

  /** The first such break: the tenth report of a second sorts before the ninth. */
  lemma TenSortsBeforeNine(stamp: string)
    ensures Less(ReportId(stamp, 10), ReportId(stamp, 9))
    ensures !Less(ReportId(stamp, 9), ReportId(stamp, 10))
  {
    assert Decimal(10) == Decimal(1) + [Digit(0)];
    assert Decimal(1) == ['1'] && Decimal(9) == ['9'];
    assert Less(Decimal(10), Decimal(9));
    LessAfterPrefix(stamp + "-", Decimal(10), Decimal(9));
    LessAsymmetric(ReportId(stamp, 10), ReportId(stamp, 9));
  }

  // ---- timestamps ----

  /** Every field fits the width the layout gives it. */
  predicate Fits(c: Civil) {
    c.year < 10000 && c.month < 100 && c.day < 100 && c.hour < 100 && c.minute < 100 && c.second < 100
  }

  /** The layout 20060102T150405Z. */
  function Stamp(c: Civil): string {
    Padded(c.year, 4) + (Padded(c.month, 2) + (Padded(c.day, 2)
    + ("T" + (Padded(c.hour, 2) + (Padded(c.minute, 2) + (Padded(c.second, 2) + "Z"))))))
  }

  /** The last w decimal digits, leading zeros included. */
  function Padded(n: nat, w: nat): (s: string)
    ensures |s| == w
  {
    if w == 0 then "" else Padded(n / 10, w - 1) + [Digit(n % 10)]
  }

  lemma {:induction false} PaddedSorts(n: nat, m: nat, w: nat)
    requires n < Pow10(w) && m < Pow10(w)
    ensures Less(Padded(n, w), Padded(m, w)) <==> n < m
    ensures Padded(n, w) == Padded(m, w) <==> n == m
  {
    if w > 0 {
      var p, q := Padded(n / 10, w - 1), Padded(m / 10, w - 1);
      var x, y := [Digit(n % 10)], [Digit(m % 10)];
      assert n / 10 < Pow10(w - 1) && m / 10 < Pow10(w - 1);
      PaddedSorts(n / 10, m / 10, w - 1);
      DigitsSort(n % 10, m % 10);
      if p == q {
        LessAfterPrefix(p, x, y);
      } else {
        LessByPrefix(p, q, x, y);
        assert (p + x)[..w - 1] == p && (q + y)[..w - 1] == q;
      }
      assert (p + x)[w - 1..] == x && (q + y)[w - 1..] == y;
    }
  }

  lemma DigitsSort(x: nat, y: nat)
    requires x < 10 && y < 10
    ensures Less([Digit(x)], [Digit(y)]) <==> x < y
    ensures [Digit(x)] == [Digit(y)] <==> x == y
  {
    assert [Digit(x)][0] == Digit(x) && [Digit(y)][0] == Digit(y);
  }

  /** A padded field decides, and only when it ties does the rest. */
  lemma FieldDecides(n: nat, m: nat, w: nat, a: string, b: string)
    requires n < Pow10(w) && m < Pow10(w)
    ensures Less(Padded(n, w) + a, Padded(m, w) + b) <==> if n != m then n < m else Less(a, b)
  {
    PaddedSorts(n, m, w);
    if n == m {
      LessAfterPrefix(Padded(n, w), a, b);
    } else {
      LessByPrefix(Padded(n, w), Padded(m, w), a, b);
    }
  }

  /** Through the year 9999, timestamps sort as the seconds they name. */
  lemma StampsSort(a: Civil, b: Civil)
    requires Fits(a) && Fits(b)
    ensures |Stamp(a)| == |Stamp(b)|
    ensures Less(Stamp(a), Stamp(b)) <==> a.Before(b)
    ensures Stamp(a) == Stamp(b) <==> a == b
  {
    TimesSort(a, b);
    TimesSort(b, a);
    LessIrreflexive(Stamp(a));
  }

  lemma TimesSort(a: Civil, b: Civil)
    requires Fits(a) && Fits(b)
    ensures Less(Stamp(a), Stamp(b)) <==> a.Before(b)
  {
    hide Less, Padded;
    assert Pow10(2) == 100 && Pow10(4) == 10000;
    var s, s' := Padded(a.second, 2) + "Z", Padded(b.second, 2) + "Z";
    var m, m' := Padded(a.minute, 2) + s, Padded(b.minute, 2) + s';
    var h, h' := Padded(a.hour, 2) + m, Padded(b.hour, 2) + m';
    var d, d' := Padded(a.day, 2) + ("T" + h), Padded(b.day, 2) + ("T" + h');
    var n, n' := Padded(a.month, 2) + d, Padded(b.month, 2) + d';
    LessIrreflexive("Z");
    FieldDecides(a.second, b.second, 2, "Z", "Z");
    FieldDecides(a.minute, b.minute, 2, s, s');
    FieldDecides(a.hour, b.hour, 2, m, m');
    LessAfterPrefix("T", h, h');
    FieldDecides(a.day, b.day, 2, "T" + h, "T" + h');
    FieldDecides(a.month, b.month, 2, d, d');
    FieldDecides(a.year, b.year, 4, n, n');
  }

  /** IDs of two different seconds always sort chronologically; within one second it
      is the unpadded numbers that decide. */
  lemma IdsSortChronologically(a: Civil, n: nat, b: Civil, m: nat)
    requires Fits(a) && Fits(b)
    ensures a != b ==> (Less(ReportId(Stamp(a), n), ReportId(Stamp(b), m)) <==> a.Before(b))
    ensures a == b && n < m ==>
      && |Decimal(n)| <= |Decimal(m)|
      && (Less(ReportId(Stamp(a), n), ReportId(Stamp(b), m)) <==> n * Pow10(|Decimal(m)| - |Decimal(n)|) <= m)
  {
    hide Less, ReportId;
    StampsSort(a, b);
    if a != b {
      StampsDecideFirst(Stamp(a), n, Stamp(b), m);
    } else if n < m {
      IdsSortExactlyWhen(Stamp(a), n, m);
    }
  }

  /** The timestamp of an instant. */
  function StampAt(t: int): string
    requires InEra(t)
  {
    Stamp(CivilOf(SecondOf(t)))
  }

  /** The timestamp of any instant, given how one outside the years of four digits
      would be written. */
  function StampOf(t: int, oddStamp: string): string {
    if InEra(t) then StampAt(t) else oddStamp
  }

  lemma ValidFits(c: Civil)
    requires c.Valid() && c.year < 10000
    ensures Fits(c)
  {
  }

  /** Timestamps of instants sort as the seconds the instants fall in. */
  lemma StampsAtSort(t: int, u: int)
    requires InEra(t) && InEra(u)
    ensures |StampAt(t)| == |StampAt(u)|
    ensures Less(StampAt(t), StampAt(u)) <==> SecondOf(t) < SecondOf(u)
    ensures StampAt(t) == StampAt(u) <==> SecondOf(t) == SecondOf(u)
  {
    hide Less, Stamp, Civil.Valid, Civil.Before, Civil.Seconds, Fits, SecondOf;
    var a, b := CivilOf(SecondOf(t)), CivilOf(SecondOf(u));
    ValidFits(a);
    ValidFits(b);
    StampsSort(a, b);
    BeforeIsEarlier(a, b);
  }

  /** What the first ID of all looks like, had it been made at the start of 1970. */
  lemma FirstId()
    ensures InEra(0)
    ensures ReportId(StampAt(0), 1) == "19700101T000000Z-1"
  {
    hide Stamp, CivilOf, Civil.Valid, Civil.Seconds, Decimal;
    EpochIs1970();
    BeforeIsEarlier(CivilOf(SecondOf(0)), Civil(1970, 1, 1, 0, 0, 0));
    StampOf1970();
    FirstDecimal();
    assert "19700101T000000Z" + "-" + "1" == "19700101T000000Z-1";
  }

  lemma FirstDecimal()
    ensures Decimal(1) == "1"
  {
  }

  lemma StampOf1970()
    ensures Stamp(Civil(1970, 1, 1, 0, 0, 0)) == "19700101T000000Z"
  {
    PaddedLiterals();
    hide Padded;
    assert "00" + ("00" + ("00" + "Z")) == "000000Z";
    assert "T" + "000000Z" == "T000000Z";
    assert "1970" + ("01" + ("01" + "T000000Z")) == "19700101T000000Z";
  }

  lemma PaddedLiterals()
    ensures Padded(1970, 4) == "1970" && Padded(1, 2) == "01" && Padded(0, 2) == "00"
  {
    assert Padded(1, 1) == "1" && Padded(19, 2) == "19" && Padded(197, 3) == "197";
  }
}
