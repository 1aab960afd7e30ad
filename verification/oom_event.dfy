/** The wire format of a traced kill: 112 little-endian bytes at the offsets of
    struct oom_event. */
module OomEvent {
  import opened Common
  import opened Detection

  type byte = b: int | 0 <= b < 256

  const EVENT_SIZE: nat := 112

  /** 2 to the 8k: how many values k bytes hold. */
  function Span(k: nat): (s: nat)
    ensures s > 0
  {
    if k == 0 then 1 else 256 * Span(k - 1)
  }

  // ---- little-endian integers ----

  function FromLE(bytes: seq<byte>): nat {
    if bytes == [] then 0 else bytes[0] + 256 * FromLE(bytes[1..])
  }

  function ToLE(n: nat, k: nat): (bytes: seq<byte>)
    ensures |bytes| == k
  {
    if k == 0 then [] else [n % 256] + ToLE(n / 256, k - 1)
  }

  lemma {:induction false} FromLEBound(bytes: seq<byte>)
    ensures FromLE(bytes) < Span(|bytes|)
  {
    if bytes != [] {
      FromLEBound(bytes[1..]);
    }
  }

  lemma {:induction false} FromToLE(n: nat, k: nat)
    requires n < Span(k)
    ensures FromLE(ToLE(n, k)) == n
  {
    if k > 0 {
      FromToLE(n / 256, k - 1);
      assert ToLE(n, k)[1..] == ToLE(n / 256, k - 1);
    }
  }

  lemma LowByte(low: byte, rest: nat)
    ensures (low + 256 * rest) % 256 == low && (low + 256 * rest) / 256 == rest
  {
  }

  lemma {:induction false} ToFromLE(bytes: seq<byte>)
    ensures ToLE(FromLE(bytes), |bytes|) == bytes
  {
    if bytes != [] {
      ToFromLE(bytes[1..]);
      LowByte(bytes[0], FromLE(bytes[1..]));
      assert bytes == [bytes[0]] + bytes[1..];
    }
  }

  // ---- two's complement ----

  function Signed(n: nat, k: nat): int {
    if 2 * n < Span(k) then n else n - Span(k)
  }

  function Unsigned(i: int, k: nat): int {
    if i >= 0 then i else i + Span(k)
  }

  predicate FitsSigned(i: int, k: nat) {
    0 - Span(k) <= 2 * i < Span(k)
  }

  lemma SignedRoundTrip(n: nat, i: int, k: nat)
    requires n < Span(k) && FitsSigned(i, k)
    ensures FitsSigned(Signed(n, k), k) && Unsigned(Signed(n, k), k) == n
    ensures 0 <= Unsigned(i, k) < Span(k) && Signed(Unsigned(i, k), k) == i
  {
  }

  lemma Spans()
    ensures Span(1) == 256 && Span(4) == 0x1_0000_0000 && Span(8) == TWO_TO_64
  {
    assert Span(2) == 65536 && Span(3) == 0x100_0000;
    assert Span(5) == 0x100_0000_0000 && Span(6) == 0x1_0000_0000_0000 && Span(7) == 0x100_0000_0000_0000;
  }

  // ---- the event ----

  datatype RawEvent = RawEvent(
    timestampNS: int,
    memcgID: int,
    taskCgroupID: int,
    anonRSSPages: int,
    fileRSSPages: int,
    shmemRSSPages: int,
    totalVMPages: int,
    limitPages: int,
    badnessPoints: int,
    pid: int,
    tid: int,
    ppid: int,
    nsPid: int,
    oomScoreAdj: int,
    memcgOOM: byte,
    comm: seq<byte>)

  predicate Word(n: int, k: nat) {
    0 <= n < Span(k)
  }

  /** Every field lies in the range of its C type. */
  predicate InRange(e: RawEvent) {
    && Word(e.timestampNS, 8) && Word(e.memcgID, 8) && Word(e.taskCgroupID, 8)
    && Word(e.anonRSSPages, 8) && Word(e.fileRSSPages, 8) && Word(e.shmemRSSPages, 8)
    && Word(e.totalVMPages, 8) && Word(e.limitPages, 8) && FitsSigned(e.badnessPoints, 8)
    && Word(e.pid, 4) && Word(e.tid, 4) && Word(e.ppid, 4) && Word(e.nsPid, 4) && FitsSigned(e.oomScoreAdj, 4)
    && |e.comm| == 16
  }

  /** Where each field of the C struct starts; padding is a field of its own. */
  const OFFSETS: seq<nat> := [0, 8, 16, 24, 32, 40, 48, 56, 64, 72, 76, 80, 84, 88, 92, 93, 96, 112]

  const PADDING: seq<byte> := [0, 0, 0]

  /** The bytes of field i. */
  function Field(sample: seq<byte>, i: nat): (bytes: seq<byte>)
    requires |sample| == EVENT_SIZE && i + 1 < |OFFSETS|
    ensures |bytes| == OFFSETS[i + 1] - OFFSETS[i]
  {
    sample[OFFSETS[i]..OFFSETS[i + 1]]
  }

  /** Reads one ring buffer sample; any other length is an error. */
  function Decode(sample: seq<byte>): Option<RawEvent> {
    if |sample| != EVENT_SIZE then None
    else Some(RawEvent(
      FromLE(Field(sample, 0)),
      FromLE(Field(sample, 1)),
      FromLE(Field(sample, 2)),
      FromLE(Field(sample, 3)),
      FromLE(Field(sample, 4)),
      FromLE(Field(sample, 5)),
      FromLE(Field(sample, 6)),
      FromLE(Field(sample, 7)),
      Signed(FromLE(Field(sample, 8)), 8),
      FromLE(Field(sample, 9)),
      FromLE(Field(sample, 10)),
      FromLE(Field(sample, 11)),
      FromLE(Field(sample, 12)),
      Signed(FromLE(Field(sample, 13)), 4),
      Field(sample, 14)[0],
      Field(sample, 16)))
  }

  /** What the kernel side writes, field by field. */
  function Parts(e: RawEvent): (parts: seq<seq<byte>>)
    requires InRange(e)
    ensures |parts| == |OFFSETS| - 1
    ensures forall i | 0 <= i < |parts| :: |parts[i]| == OFFSETS[i + 1] - OFFSETS[i]
  {
    SignedRoundTrip(0, e.badnessPoints, 8);
    SignedRoundTrip(0, e.oomScoreAdj, 4);
    [ToLE(e.timestampNS, 8), ToLE(e.memcgID, 8), ToLE(e.taskCgroupID, 8), ToLE(e.anonRSSPages, 8),
     ToLE(e.fileRSSPages, 8), ToLE(e.shmemRSSPages, 8), ToLE(e.totalVMPages, 8), ToLE(e.limitPages, 8),
     ToLE(Unsigned(e.badnessPoints, 8), 8), ToLE(e.pid, 4), ToLE(e.tid, 4), ToLE(e.ppid, 4), ToLE(e.nsPid, 4),
     ToLE(Unsigned(e.oomScoreAdj, 4), 4), [e.memcgOOM], PADDING, e.comm]
  }

  function Flatten(parts: seq<seq<byte>>): seq<byte> {
    if parts == [] then [] else Flatten(parts[..|parts| - 1]) + parts[|parts| - 1]
  }

  function Encode(e: RawEvent): seq<byte>
    requires InRange(e)
  {
    Flatten(Parts(e))
  }

  lemma OffsetsIncrease()
    ensures |OFFSETS| == 18 && OFFSETS[0] == 0 && OFFSETS[17] == EVENT_SIZE
    ensures forall i, j | 0 <= i <= j < |OFFSETS| :: OFFSETS[i] <= OFFSETS[j]
  {
  }

  /** Consecutive cut points, from zero up. */
  predicate Cuts(offs: seq<nat>) {
    && |offs| > 0 && offs[0] == 0
    && forall i, j | 0 <= i <= j < |offs| :: offs[i] <= offs[j]
  }

  predicate Widths(parts: seq<seq<byte>>, offs: seq<nat>) {
    |offs| == |parts| + 1 && forall i | 0 <= i < |parts| :: offs[i + 1] == offs[i] + |parts[i]|
  }

  lemma SliceOfPrefix(front: seq<byte>, rest: seq<byte>, a: nat, b: nat)
    requires a <= b <= |front|
    ensures (front + rest)[a..b] == front[a..b]
  {
  }

  predicate IsPiece(sample: seq<byte>, piece: seq<byte>, a: nat, b: nat) {
    a <= b <= |sample| && piece == sample[a..b]
  }

  /** Parts of the right widths land between the cuts. */
  lemma {:induction false} PartsLand(parts: seq<seq<byte>>, offs: seq<nat>, n: nat)
    requires Cuts(offs) && Widths(parts, offs) && n <= |parts|
    ensures |Flatten(parts[..n])| == offs[n]
    ensures forall i | 0 <= i < n :: Flatten(parts[..n])[offs[i]..offs[i + 1]] == parts[i]
  {
    if n > 0 {
      PartsLand(parts, offs, n - 1);
      assert parts[..n][..n - 1] == parts[..n - 1];
      var front, all := Flatten(parts[..n - 1]), Flatten(parts[..n]);
      assert all == front + parts[n - 1];
      forall i | 0 <= i < n - 1
        ensures all[offs[i]..offs[i + 1]] == parts[i]
      {
        assert offs[i + 1] <= offs[n - 1];
        SliceOfPrefix(front, parts[n - 1], offs[i], offs[i + 1]);
      }
    }
  }

  /** A sequence cut up is its pieces side by side. */
  lemma {:induction false} PiecesJoin(sample: seq<byte>, parts: seq<seq<byte>>, offs: seq<nat>, n: nat)
    requires Cuts(offs) && n <= |parts| == |offs| - 1 && offs[|offs| - 1] <= |sample|
    requires forall i | 0 <= i < |parts| :: IsPiece(sample, parts[i], offs[i], offs[i + 1])
    ensures offs[n] <= |sample| && Flatten(parts[..n]) == sample[..offs[n]]
  {
    if n > 0 {
      PiecesJoin(sample, parts, offs, n - 1);
      assert parts[..n][..n - 1] == parts[..n - 1];
      assert sample[..offs[n]] == sample[..offs[n - 1]] + sample[offs[n - 1]..offs[n]];
    }
  }

  lemma WordRoundTrip(n: int, k: nat)
    requires Word(n, k)
    ensures FromLE(ToLE(n, k)) == n
  {
    FromToLE(n, k);
  }

  lemma SignedFieldRoundTrip(i: int, k: nat)
    requires FitsSigned(i, k)
    ensures 0 <= Unsigned(i, k) && Signed(FromLE(ToLE(Unsigned(i, k), k)), k) == i
  {
    SignedRoundTrip(0, i, k);
    FromToLE(Unsigned(i, k), k);
  }

  lemma EncodedFields(e: RawEvent)
    requires InRange(e)
    ensures |Encode(e)| == EVENT_SIZE
    ensures forall i | 0 <= i < |OFFSETS| - 1 :: Field(Encode(e), i) == Parts(e)[i]
  {
    OffsetsIncrease();
    hide OFFSETS, Parts;
    var parts := Parts(e);
    assert parts[..|parts|] == parts;
    PartsLand(parts, OFFSETS, |parts|);
  }

  /** Decoding undoes encoding. */
  lemma DecodeEncode(e: RawEvent)
    requires InRange(e)
    ensures Decode(Encode(e)) == Some(e)
  {
    EncodedFields(e);
    OffsetsIncrease();
    hide Encode, ToLE, FromLE, Signed, Unsigned, Span, Field;
    WordRoundTrip(e.timestampNS, 8);
    WordRoundTrip(e.memcgID, 8);
    WordRoundTrip(e.taskCgroupID, 8);
    WordRoundTrip(e.anonRSSPages, 8);
    WordRoundTrip(e.fileRSSPages, 8);
    WordRoundTrip(e.shmemRSSPages, 8);
    WordRoundTrip(e.totalVMPages, 8);
    WordRoundTrip(e.limitPages, 8);
    SignedFieldRoundTrip(e.badnessPoints, 8);
    WordRoundTrip(e.pid, 4);
    WordRoundTrip(e.tid, 4);
    WordRoundTrip(e.ppid, 4);
    WordRoundTrip(e.nsPid, 4);
    SignedFieldRoundTrip(e.oomScoreAdj, 4);
  }

  lemma FieldWord(sample: seq<byte>, i: nat, k: nat)
    requires |sample| == EVENT_SIZE && i + 1 < |OFFSETS| && OFFSETS[i + 1] - OFFSETS[i] == k
    ensures Word(FromLE(Field(sample, i)), k) && ToLE(FromLE(Field(sample, i)), k) == Field(sample, i)
    ensures FitsSigned(Signed(FromLE(Field(sample, i)), k), k)
    ensures Unsigned(Signed(FromLE(Field(sample, i)), k), k) == FromLE(Field(sample, i))
  {
    var bytes := Field(sample, i);
    FromLEBound(bytes);
    ToFromLE(bytes);
    SignedRoundTrip(FromLE(bytes), 0, k);
  }

  /** The wide unsigned fields of a decoded sample are in range. */
  lemma DecodedWords(sample: seq<byte>)
    requires |sample| == EVENT_SIZE
    ensures forall i: nat | i < 8 :: Word(FromLE(Field(sample, i)), 8)
    ensures forall i: nat | 9 <= i < 13 :: Word(FromLE(Field(sample, i)), 4)
  {
    hide ToLE, FromLE, Signed, Unsigned, Span, Word, FitsSigned, Field;
    forall i: nat | i < 8
      ensures Word(FromLE(Field(sample, i)), 8)
    {
      FieldWord(sample, i, 8);
    }
    forall i: nat | 9 <= i < 13
      ensures Word(FromLE(Field(sample, i)), 4)
    {
      FieldWord(sample, i, 4);
    }
  }

  lemma DecodedInRange(sample: seq<byte>)
    requires |sample| == EVENT_SIZE
    ensures InRange(Decode(sample).value)
  {
    DecodedWords(sample);
    FieldWord(sample, 8, 8);
    FieldWord(sample, 13, 4);
    assert |Field(sample, 16)| == 16;
    hide ToLE, FromLE, Signed, Unsigned, Span, Word, FitsSigned, Field, OFFSETS;
  }

  /** What is written back for a decoded sample is what was read, padding aside. */
  lemma DecodedParts(sample: seq<byte>, i: nat)
    requires |sample| == EVENT_SIZE && i < |OFFSETS| - 1 && i != 15
    requires InRange(Decode(sample).value)
    ensures Parts(Decode(sample).value)[i] == Field(sample, i)
  {
    hide ToLE, FromLE, Signed, Unsigned, Span, InRange, Field;
    if i < 14 {
      FieldWord(sample, i, if i < 9 then 8 else 4);
    } else if i == 14 {
      assert Field(sample, 14) == [Field(sample, 14)[0]];
    }
  }

  /** Encoding undoes decoding exactly on samples of the right length whose padding
      is zero; every sample of that length decodes, and no other does. */
  lemma EncodeDecode(sample: seq<byte>)
    ensures Decode(sample).Some? <==> |sample| == EVENT_SIZE
    ensures |sample| == EVENT_SIZE ==>
      && InRange(Decode(sample).value)
      && (Encode(Decode(sample).value) == sample <==> sample[93..96] == [0, 0, 0])
  {
    if |sample| == EVENT_SIZE {
      var e := Decode(sample).value;
      DecodedInRange(sample);
      EncodedFields(e);
      forall i | 0 <= i < |OFFSETS| - 1 && i != 15
        ensures Parts(e)[i] == Field(sample, i)
      {
        DecodedParts(sample, i);
      }
      assert Parts(e)[15] == PADDING;
      assert Field(sample, 15) == sample[93..96];
      OffsetsIncrease();
      hide Decode, Encode, Parts, OFFSETS, Field;
      if sample[93..96] == PADDING {
        EncodeFromFields(sample, e);
      }
    }
  }

  lemma EncodeFromFields(sample: seq<byte>, e: RawEvent)
    requires |sample| == EVENT_SIZE && InRange(e)
    requires forall i | 0 <= i < |OFFSETS| - 1 :: Parts(e)[i] == Field(sample, i)
    ensures Encode(e) == sample
  {
    OffsetsIncrease();
    hide OFFSETS, Parts;
    var parts := Parts(e);
    PiecesJoin(sample, parts, OFFSETS, |parts|);
    assert parts[..|parts|] == parts && sample[..EVENT_SIZE] == sample;
  }

  /** A four-byte word, least byte first. */
  function Word4(b: seq<byte>, at: nat): nat
    requires at + 4 <= |b|
  {
    b[at] as int + 0x100 * b[at + 1] as int + 0x1_0000 * b[at + 2] as int + 0x100_0000 * b[at + 3] as int
  }

  /** An eight-byte word, least byte first. */
  function Word8(b: seq<byte>, at: nat): nat
    requires at + 8 <= |b|
  {
    Word4(b, at) + 0x1_0000_0000 * Word4(b, at + 4)
  }

  lemma FromLE4(b: seq<byte>, at: nat)
    requires at + 4 <= |b|
    ensures FromLE(b[at..at + 4]) == Word4(b, at)
  {
    var w := b[at..at + 4];
    assert w[1..][1..] == w[2..] && w[2..][1..] == w[3..] && w[3..][1..] == [];
    assert FromLE(w[3..]) == w[3];
    assert FromLE(w[2..]) == w[2] as int + 256 * FromLE(w[3..]);
    assert FromLE(w[1..]) == w[1] + 256 * FromLE(w[2..]);
  }

  lemma {:induction false} FromLEConcat(a: seq<byte>, b: seq<byte>)
    ensures FromLE(a + b) == FromLE(a) + Span(|a|) * FromLE(b)
  {
    if a == [] {
      assert a + b == b;
    } else {
      assert (a + b)[0] == a[0] && (a + b)[1..] == a[1..] + b;
      FromLEConcat(a[1..], b);
      Scaled(a[0], FromLE(a[1..]), Span(|a| - 1), FromLE(b));
    }
  }

  lemma Scaled(low: nat, x: nat, s: nat, y: nat)
    ensures low + 256 * (x + s * y) == low + 256 * x + (256 * s) * y
  {
    assert 256 * (s * y) == (256 * s) * y;
  }

  lemma FromLE8(b: seq<byte>, at: nat)
    requires at + 8 <= |b|
    ensures FromLE(b[at..at + 8]) == Word8(b, at)
  {
    FromLE4(b, at);
    FromLE4(b, at + 4);
    Spans();
    hide FromLE, Span, Word4;
    assert b[at..at + 8] == b[at..at + 4] + b[at + 4..at + 8];
    FromLEConcat(b[at..at + 4], b[at + 4..at + 8]);
  }

  /** Every field of a decoded sample, byte by byte. */
  lemma DecodedFields(sample: seq<byte>)
    requires |sample| == 112
    ensures Decode(sample).Some?
    ensures var e := Decode(sample).value;
      && e.timestampNS == Word8(sample, 0) && e.memcgID == Word8(sample, 8) && e.taskCgroupID == Word8(sample, 16)
      && e.anonRSSPages == Word8(sample, 24) && e.fileRSSPages == Word8(sample, 32)
      && e.shmemRSSPages == Word8(sample, 40) && e.totalVMPages == Word8(sample, 48)
      && e.limitPages == Word8(sample, 56)
      && e.badnessPoints == Word8(sample, 64) - (if Word8(sample, 64) < 0x8000_0000_0000_0000 then 0
                                                 else 0x1_0000_0000_0000_0000)
      && e.pid == Word4(sample, 72) && e.tid == Word4(sample, 76)
      && e.ppid == Word4(sample, 80) && e.nsPid == Word4(sample, 84)
      && e.oomScoreAdj == Word4(sample, 88) - (if Word4(sample, 88) < 0x8000_0000 then 0 else 0x1_0000_0000)
      && e.memcgOOM == sample[92] && e.comm == sample[96..112]
  {
    WideField(sample, 0);
    WideField(sample, 1);
    WideField(sample, 2);
    WideField(sample, 3);
    WideField(sample, 4);
    WideField(sample, 5);
    WideField(sample, 6);
    WideField(sample, 7);
    WideField(sample, 8);
    NarrowField(sample, 9);
    NarrowField(sample, 10);
    NarrowField(sample, 11);
    NarrowField(sample, 12);
    NarrowField(sample, 13);
    LastFields(sample);
    Spans();
    hide FromLE, Span, Word4, Word8, Field, OFFSETS;
  }

  lemma WideField(sample: seq<byte>, i: nat)
    requires |sample| == 112 && i < 9
    ensures FromLE(Field(sample, i)) == Word8(sample, 8 * i)
  {
    assert OFFSETS[i] == 8 * i && OFFSETS[i + 1] == 8 * i + 8;
    hide FromLE, Word8, OFFSETS;
    FromLE8(sample, 8 * i);
  }

  lemma NarrowField(sample: seq<byte>, i: nat)
    requires |sample| == 112 && 9 <= i < 14
    ensures FromLE(Field(sample, i)) == Word4(sample, 72 + 4 * (i - 9))
  {
    assert OFFSETS[i] == 72 + 4 * (i - 9) && OFFSETS[i + 1] == OFFSETS[i] + 4;
    hide FromLE, Word4, OFFSETS;
    FromLE4(sample, 72 + 4 * (i - 9));
  }

  lemma LastFields(sample: seq<byte>)
    requires |sample| == 112
    ensures Field(sample, 14)[0] == sample[92] && Field(sample, 16) == sample[96..112]
  {
  }

  // ---- reading an event ----

  /** The executable name: everything before the first NUL of the kernel's padding. */
  function Comm(comm: seq<byte>): (name: seq<byte>)
    ensures name <= comm && 0 !in name
    ensures |name| < |comm| ==> comm[|name|] == 0
  {
    if comm == [] || comm[0] == 0 then [] else [comm[0]] + Comm(comm[1..])
  }

  function Zeros(n: nat): (z: seq<byte>)
    ensures |z| == n && forall i | 0 <= i < n :: z[i] == 0
  {
    seq(n, i => 0)
  }

  /** Any NUL-free name comes back whole from its padded field. */
  lemma {:induction false} CommUndoesPadding(name: seq<byte>, n: nat)
    requires 0 !in name
    ensures Comm(name + Zeros(n)) == name
  {
    var padded := name + Zeros(n);
    if name == [] {
      assert n > 0 ==> padded[0] == 0;
    } else {
      assert padded[0] == name[0] && padded[1..] == name[1..] + Zeros(n);
      CommUndoesPadding(name[1..], n);
    }
  }

  /** Resident bytes: pages times the running kernel's page size, in 64 bits. */
  function RssBytes(e: RawEvent, pageSize: int): (r: u64)
    requires InRange(e)
  {
    if pageSize <= 0 then 0
    else ((e.anonRSSPages + e.fileRSSPages + e.shmemRSSPages) % TWO_TO_64) * pageSize % TWO_TO_64
  }

  /** The total is exact unless it needs more than 64 bits, and then it is wrong. */
  lemma RssExactWhen(e: RawEvent, pageSize: int)
    requires InRange(e) && pageSize > 0
    ensures var exact := (e.anonRSSPages + e.fileRSSPages + e.shmemRSSPages) * pageSize;
      RssBytes(e, pageSize) == exact <==> exact < TWO_TO_64
  {
    WrappedProduct(e.anonRSSPages + e.fileRSSPages + e.shmemRSSPages, pageSize);
    hide Span;
  }

  lemma WrappedProduct(pages: nat, pageSize: int)
    requires pageSize > 0
    ensures (pages % TWO_TO_64) * pageSize % TWO_TO_64 == pages * pageSize <==> pages * pageSize < TWO_TO_64
  {
    if pages * pageSize < TWO_TO_64 {
      assert pages * 1 <= pages * pageSize;
      assert pages % TWO_TO_64 == pages;
    }
  }

  function Text(bytes: seq<byte>): (s: string)
    ensures |s| == |bytes| && forall i | 0 <= i < |s| :: s[i] as int == bytes[i]
  {
    seq(|bytes|, i requires 0 <= i < |bytes| => bytes[i] as char)
  }

  /** A decoded sample as a kill event; the kernel named the victim, so nothing is
      inferred. The timestamp passes through a signed Duration. */
  function KillEventOf(e: RawEvent, path: string, pageSize: int, bootTime: int): KillEvent
    requires InRange(e)
  {
    KillEvent(
      bootTime + Signed(e.timestampNS, 8), path,
      Victim(e.pid, e.nsPid, Text(Comm(e.comm)), [], RssBytes(e, pageSize), false, true),
      0, None, EBPF)
  }

  /** End to end: what the kernel writes for a named task is what the event says. The
      time is exact exactly below 2^63 nanoseconds of uptime, the resident bytes
      exactly when they fit 64 bits; everything else always is. */
  lemma TracedKillSurvivesTheWire(e: RawEvent, name: seq<byte>, path: string, pageSize: int, bootTime: int)
    requires InRange(e) && |name| <= 16 && 0 !in name
    requires e.comm == name + Zeros(16 - |name|)
    ensures Decode(Encode(e)) == Some(e)
    ensures var event := KillEventOf(Decode(Encode(e)).value, path, pageSize, bootTime);
      && (event.time == bootTime + e.timestampNS <==> 2 * e.timestampNS < TWO_TO_64)
      && event.cgroupPath == path && event.source == EBPF
      && event.killCount == 0 && event.groupKill == None
      && event.victim.pid == e.pid && event.victim.nsPid == e.nsPid
      && event.victim.comm == Text(name) && event.victim.cmdline == []
      && event.victim.known && !event.victim.inferred
      && (pageSize <= 0 ==> event.victim.rssBytes == 0)
      && (pageSize > 0 ==>
            var exact := (e.anonRSSPages + e.fileRSSPages + e.shmemRSSPages) * pageSize;
            event.victim.rssBytes == exact <==> exact < TWO_TO_64)
  {
    hide Decode, Encode, InRange, KillEventOf, Text;
    DecodeEncode(e);
    EventTime(e, path, pageSize, bootTime);
    EventRss(e, path, pageSize, bootTime);
    EventVictim(e, name, path, pageSize, bootTime);
  }

  lemma EventTime(e: RawEvent, path: string, pageSize: int, bootTime: int)
    requires InRange(e)
    ensures KillEventOf(e, path, pageSize, bootTime).time == bootTime + e.timestampNS <==> 2 * e.timestampNS < TWO_TO_64
  {
    Spans();
    hide Comm, Text, RssBytes, Span;
  }

  lemma EventRss(e: RawEvent, path: string, pageSize: int, bootTime: int)
    requires InRange(e)
    ensures var rss := KillEventOf(e, path, pageSize, bootTime).victim.rssBytes;
      && (pageSize <= 0 ==> rss == 0)
      && (pageSize > 0 ==>
            var exact := (e.anonRSSPages + e.fileRSSPages + e.shmemRSSPages) * pageSize;
            rss == exact <==> exact < TWO_TO_64)
  {
    hide Comm, Text, Signed, InRange;
    if pageSize > 0 {
      hide RssBytes;
      RssExactWhen(e, pageSize);
    }
  }

  lemma EventVictim(e: RawEvent, name: seq<byte>, path: string, pageSize: int, bootTime: int)
    requires InRange(e) && |name| <= 16 && 0 !in name
    requires e.comm == name + Zeros(16 - |name|)
    ensures var event := KillEventOf(e, path, pageSize, bootTime);
      && event.cgroupPath == path && event.source == EBPF
      && event.killCount == 0 && event.groupKill == None
      && event.victim.pid == e.pid && event.victim.nsPid == e.nsPid
      && event.victim.comm == Text(name) && event.victim.cmdline == []
      && event.victim.known && !event.victim.inferred
  {
    CommUndoesPadding(name, 16 - |name|);
    hide Comm, Text, Signed, InRange, RssBytes;
  }
}
