/** A ring over an array: writing moves round and round, reading starts at the oldest. */
module SampleRing {
  import opened Common
  import opened CgroupStats

  lemma WrapUp(k: nat, n: nat)
    requires k < n
    ensures (k + 1) % n == if k + 1 == n then 0 else k + 1
    ensures (k - 1 + n) % n == if k == 0 then n - 1 else k - 1
  {
    if k == 0 {
      QuotientUnique(n - 1, n, 0, n - 1);
    } else {
      QuotientUnique(k - 1 + n, n, 1, k - 1);
    }
    if k + 1 == n {
      QuotientUnique(n, n, 1, 0);
    } else {
      QuotientUnique(k + 1, n, 0, k + 1);
    }
  }

  class Ring {
    const samples: array<Sample>
    var next: nat
    var filled: bool

    ghost predicate Valid()
      reads this, samples
    {
      next < samples.Length
    }

    /** What the ring holds, in the order it was added. */
    ghost function Contents(): seq<Sample>
      requires Valid()
      reads this, samples
    {
      if filled then samples[next..] + samples[..next] else samples[..next]
    }

    constructor (capacity: nat)
      requires capacity > 0
      ensures Valid() && fresh(samples) && samples.Length == capacity
      ensures Contents() == []
    {
      samples := new Sample[capacity](_ => Sample(0, MemoryStats(0, 0, 0, false, 0, 0), 0.0));
      next := 0;
      filled := false;
    }

    /** Writes at next; a ring gone round once gives up what stood there. */
    method Add(s: Sample)
      requires Valid()
      modifies this, samples
      ensures Valid()
      ensures Contents() == LastN(old(Contents()) + [s], samples.Length)
    {
      ghost var before, k, n := Contents(), next, samples.Length;
      WrapUp(k, n);
      samples[next] := s;
      next := (next + 1) % samples.Length;
      if next == 0 {
        filled := true;
      }
      if old(filled) {
        assert samples[..k + 1] == old(samples[..k]) + [s];
        assert samples[k + 1..] == old(samples[k + 1..]);
        assert before == [old(samples[k])] + old(samples[k + 1..]) + old(samples[..k]);
        assert Contents() == before[1..] + [s];
        assert LastN(before + [s], n) == before[1..] + [s];
      } else {
        assert samples[..k + 1] == before + [s];
        assert Contents() == before + [s];
      }
    }

    method Len() returns (n: nat)
      requires Valid()
      ensures n == |Contents()|
    {
      n := if filled then samples.Length else next;
    }

    /** The part from next on, once gone round, and then the part before it. */
    method Samples() returns (out: seq<Sample>)
      requires Valid()
      ensures out == Contents()
    {
      out := [];
      if filled {
        out := out + samples[next..];
      }
      out := out + samples[..next];
    }

    /** What was written just before next, once anything was. */
    method Latest() returns (r: Option<Sample>)
      requires Valid()
      ensures r == if Contents() == [] then None else Some(Contents()[|Contents()| - 1])
    {
      var n := Len();
      if n == 0 {
        return None;
      }
      WrapUp(next, samples.Length);
      var index := (next - 1 + samples.Length) % samples.Length;
      return Some(samples[index]);
    }
  }
}
