/** The functions of Go's strings package that the cgroup path parser uses. */
module GoStrings {
  import opened Common

  predicate HasPrefix(s: string, p: string) {
    p <= s
  }

  predicate HasSuffix(s: string, x: string) {
    |x| <= |s| && s[|s| - |x|..] == x
  }

  function CutPrefix(s: string, p: string): Option<string> {
    if HasPrefix(s, p) then Some(s[|p|..]) else None
  }

  function CutSuffix(s: string, x: string): Option<string> {
    if HasSuffix(s, x) then Some(s[..|s| - |x|]) else None
  }

  function TrimSuffix(s: string, x: string): string {
    if HasSuffix(s, x) then s[..|s| - |x|] else s
  }

  /** sub occurs in s at index k. */
  predicate OccursAt(s: string, sub: string, k: int) {
    0 <= k <= |s| - |sub| && s[k..k + |sub|] == sub
  }

  /** The last occurrence that starts before index k, or -1. */
  function LastIndexBefore(s: string, sub: string, k: nat): (r: int)
    requires k <= |s| + 1
    ensures -1 <= r < k
    ensures r >= 0 ==> OccursAt(s, sub, r)
    ensures forall j | r < j < k :: !OccursAt(s, sub, j)
  {
    if k == 0 then -1
    else if OccursAt(s, sub, k - 1) then k - 1
    else LastIndexBefore(s, sub, k - 1)
  }

  /** strings.LastIndex. */
  function LastIndex(s: string, sub: string): (r: int)
    ensures -1 <= r <= |s| - |sub| || r == -1
    ensures r >= 0 ==> OccursAt(s, sub, r)
    ensures forall j | r < j :: !OccursAt(s, sub, j)
  {
    LastIndexBefore(s, sub, |s| + 1)
  }

  predicate Contains(s: string, sub: string) {
    LastIndex(s, sub) >= 0
  }

  lemma ContainsAt(s: string, sub: string, k: int)
    requires OccursAt(s, sub, k)
    ensures Contains(s, sub)
  {
  }

  /** strings.ReplaceAll of one character by another. */
  function ReplaceChar(s: string, old_: char, new_: char): (r: string)
    ensures |r| == |s|
    ensures forall i | 0 <= i < |s| :: r[i] == if s[i] == old_ then new_ else s[i]
  {
    seq(|s|, i requires 0 <= i < |s| => if s[i] == old_ then new_ else s[i])
  }

  /** strings.ToLower. Only the ASCII letters lower to the ASCII letters of a
      tier name, so other characters may be left alone. */
  function ToLower(s: string): (r: string)
    ensures |r| == |s|
    ensures forall i | 0 <= i < |s| :: r[i] == LowerChar(s[i])
  {
    seq(|s|, i requires 0 <= i < |s| => LowerChar(s[i]))
  }

  function LowerChar(c: char): char {
    if 'A' <= c <= 'Z' then (c as int + 32) as char else c
  }

  /** The parts with c written in front of the first. */
  function Glue(c: char, parts: seq<string>): (r: seq<string>)
    requires |parts| > 0
    ensures |r| == |parts|
  {
    [[c] + parts[0]] + parts[1..]
  }

  lemma GlueConcat(c: char, x: seq<string>, y: seq<string>)
    requires |x| > 0
    ensures Glue(c, x + y) == Glue(c, x) + y
  {
    assert (x + y)[1..] == x[1..] + y;
  }

  /** strings.Split on a single character. */
  function Split(s: string, sep: char): (parts: seq<string>)
    ensures |parts| > 0
  {
    if s == "" then [""]
    else
      var rest := Split(s[1..], sep);
      if s[0] == sep then [""] + rest else Glue(s[0], rest)
  }

  lemma {:induction false} SplitConcat(a: string, sep: char, b: string)
    ensures Split(a + [sep] + b, sep) == Split(a, sep) + Split(b, sep)
  {
    var whole := a + [sep] + b;
    if a == "" {
      assert whole[1..] == b;
    } else {
      SplitConcat(a[1..], sep, b);
      assert whole[1..] == a[1..] + [sep] + b;
      var x, y := Split(a[1..], sep), Split(b, sep);
      if a[0] == sep {
        assert [""] + (x + y) == [""] + x + y;
      } else {
        GlueConcat(a[0], x, y);
      }
    }
  }

  lemma {:induction false} SplitAtom(a: string, sep: char)
    requires sep !in a
    ensures Split(a, sep) == [a]
  {
    if a != "" {
      SplitAtom(a[1..], sep);
      assert [a[0]] + a[1..] == a;
    }
  }
}
