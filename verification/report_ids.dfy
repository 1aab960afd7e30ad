/** Report IDs: a timestamp, a dash, and a sequence number. */
module ReportIds {
  import opened Common

  function Digit(d: nat): char
    requires d < 10
  {
    ('0' as int + d) as char
  }

  /** strconv.FormatUint in base ten. */
  function Decimal(n: nat): (s: string)
    ensures |s| > 0
    ensures '-' !in s
  {
    if n < 10 then [Digit(n)] else Decimal(n / 10) + [Digit(n % 10)]
  }

  /** Reading a decimal back. */
  function Value(s: string): int {
    if s == "" then 0 else 10 * Value(s[..|s| - 1]) + (s[|s| - 1] as int - '0' as int)
  }

  lemma {:induction false} DecimalRoundTrip(n: nat)
    ensures Value(Decimal(n)) == n
  {
    var s := Decimal(n);
    if n < 10 {
      assert s[..0] == "";
    } else {
      DecimalRoundTrip(n / 10);
      assert s[..|s| - 1] == Decimal(n / 10);
    }
  }

  function ReportId(stamp: string, sequence: nat): string {
    stamp + "-" + Decimal(sequence)
  }

  /** An ID determines both of its parts, whatever the timestamp looks like: the
      sequence number is what follows the last dash. */
  lemma ReportIdDeterminesParts(stamp: string, n: nat, stamp': string, n': nat)
    ensures ReportId(stamp, n) == ReportId(stamp', n') <==> stamp == stamp' && n == n'
  {
    var id, id' := ReportId(stamp, n), ReportId(stamp', n');
    if id == id' {
      assert id[|stamp|] == '-' && id'[|stamp'|] == '-';
      forall i | |stamp| < i < |id|
        ensures id[i] != '-'
      {
        assert id[i] == Decimal(n)[i - |stamp| - 1];
      }
      forall i | |stamp'| < i < |id'|
        ensures id'[i] != '-'
      {
        assert id'[i] == Decimal(n')[i - |stamp'| - 1];
      }
      assert |stamp| == |stamp'|;
      assert stamp == id[..|stamp|] == id'[..|stamp'|] == stamp';
      assert Decimal(n) == id[|stamp| + 1..] == id'[|stamp'| + 1..] == Decimal(n');
      DecimalRoundTrip(n);
      DecimalRoundTrip(n');
    }
  }
}
