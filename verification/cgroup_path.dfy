/** The cgroup path parser: from segments to pod, container, tier and driver. */
module CgroupPath {
  import opened Common
  import opened GoStrings

  datatype QoSClass = Guaranteed | Burstable | BestEffort | UnknownQoS
  datatype Driver = Systemd | Cgroupfs
  datatype Runtime = Containerd | CRIO | Docker | UnknownRuntime
  datatype ScopeKind = ContainerScope | PodScope

  datatype Scope = Scope(
    podUID: string,
    containerID: string,
    kind: ScopeKind,
    qos: QoSClass,
    driver: Driver,
    runtime: Runtime,
    cgroupPath: string)

  datatype RuntimePrefix = RuntimePrefix(prefix: string, runtime: Runtime)

  /** Each runtime's container-ID prefix under systemd, in the order tried. */
  const RUNTIME_PREFIXES: seq<RuntimePrefix> := [
    RuntimePrefix("cri-containerd-", Containerd),
    RuntimePrefix("containerd-", Containerd),
    RuntimePrefix("crio-", CRIO),
    RuntimePrefix("docker-", Docker)
  ]

  // ---- segments ----

  /** A part, unless it is empty. */
  function Kept(part: string): seq<string> {
    if part == "" then [] else [part]
  }

  function NonEmpty(parts: seq<string>): seq<string> {
    if parts == [] then [] else Kept(parts[0]) + NonEmpty(parts[1..])
  }

  function Segments(path: string): seq<string> {
    NonEmpty(Split(path, '/'))
  }

  /** Splitting at slashes, one part after another, with the empty ones left out. */
  method SplitPath(path: string) returns (segments: seq<string>)
    ensures segments == Segments(path)
  {
    var parts := Split(path, '/');
    segments := [];
    for i := 0 to |parts|
      invariant segments + NonEmpty(parts[i..]) == NonEmpty(parts)
    {
      NonEmptyStep(parts, i, segments);
      if parts[i] != "" {
        segments := segments + [parts[i]];
      }
    }
  }

  lemma NonEmptyStep(parts: seq<string>, i: nat, before: seq<string>)
    requires i < |parts|
    ensures before + NonEmpty(parts[i..]) == before + Kept(parts[i]) + NonEmpty(parts[i + 1..])
    ensures parts[i] == "" ==> before + Kept(parts[i]) == before
  {
    assert parts[i..][0] == parts[i] && parts[i..][1..] == parts[i + 1..];
  }

  lemma {:induction false} NonEmptyConcat(a: seq<string>, b: seq<string>)
    ensures NonEmpty(a + b) == NonEmpty(a) + NonEmpty(b)
  {
    if a == [] {
      assert a + b == b;
      assert [] + NonEmpty(b) == NonEmpty(b);
    } else {
      hide Kept, NonEmpty;
      NonEmptyConcat(a[1..], b);
      NonEmptyCons(a);
      NonEmptyCons(a + b);
      assert (a + b)[0] == a[0] && (a + b)[1..] == a[1..] + b;
      Reassociate(Kept(a[0]), NonEmpty(a[1..]), NonEmpty(b));
    }
  }

  lemma NonEmptyCons(parts: seq<string>)
    requires parts != []
    ensures NonEmpty(parts) == Kept(parts[0]) + NonEmpty(parts[1..])
  {
  }

  /** A slash anywhere separates: the segments of the halves, side by side. */
  lemma SegmentsConcat(a: string, b: string)
    ensures Segments(a + "/" + b) == Segments(a) + Segments(b)
  {
    SplitConcat(a, '/', b);
    NonEmptyConcat(Split(a, '/'), Split(b, '/'));
  }

  predicate WellFormedSegment(s: string) {
    s != "" && '/' !in s
  }

  predicate WellFormedSegments(segments: seq<string>) {
    forall s | s in segments :: WellFormedSegment(s)
  }

  /** The absolute path with these segments. */
  function PathOf(segments: seq<string>): string {
    if segments == [] then "" else PathOf(segments[..|segments| - 1]) + "/" + segments[|segments| - 1]
  }

  lemma {:induction false} SegmentsOfPath(segments: seq<string>)
    requires WellFormedSegments(segments)
    ensures Segments(PathOf(segments)) == segments
  {
    if segments != [] {
      var front, last := segments[..|segments| - 1], segments[|segments| - 1];
      assert last in segments;
      SegmentsOfPath(front);
      SegmentsConcat(PathOf(front), last);
      SplitAtom(last, '/');
      assert NonEmpty([last]) == [last];
      assert front + [last] == segments;
    } else {
      assert Segments("") == [];
    }
  }

  lemma {:induction false} SplitParts(s: string, sep: char)
    ensures forall part | part in Split(s, sep) :: sep !in part
  {
    if s != "" {
      SplitParts(s[1..], sep);
      var rest := Split(s[1..], sep);
      assert rest[0] in rest;
    }
  }

  lemma {:induction false} NonEmptyParts(parts: seq<string>)
    ensures forall s :: s in NonEmpty(parts) <==> s != "" && s in parts
  {
    if parts != [] {
      NonEmptyParts(parts[1..]);
      assert parts == [parts[0]] + parts[1..];
    }
  }

  /** Segments are never empty and hold no slash, so splitting the path they make
      gives them back: every path has one normal form. */
  lemma SegmentsNormalise(path: string)
    ensures WellFormedSegments(Segments(path))
    ensures Segments(PathOf(Segments(path))) == Segments(path)
  {
    hide PathOf;
    SplitParts(path, '/');
    NonEmptyParts(Split(path, '/'));
    SegmentsOfPath(Segments(path));
  }

  // ---- the parser ----

  predicate InTree(segments: seq<string>) {
    exists i | 0 <= i < |segments| :: Contains(segments[i], "kubepods")
  }

  /** Looks for kubepods inside each segment in turn and stops at the first. */
  method AnyInTree(segments: seq<string>) returns (found: bool)
    ensures found <==> InTree(segments)
  {
    for i := 0 to |segments|
      invariant forall j | 0 <= j < i :: !Contains(segments[j], "kubepods")
    {
      if Contains(segments[i], "kubepods") {
        return true;
      }
    }
    return false;
  }

  /** How the daemon tells its own blind spots from node noise. */
  method InKubepodsTree(path: string) returns (found: bool)
    ensures found <==> InTree(Segments(path))
  {
    var segments := SplitPath(path);
    found := AnyInTree(segments);
  }

  /** The pod UID in a segment, and the driver that wrote it. */
  function ParsePodSegment(segment: string): Option<(string, Driver)> {
    match CutSuffix(segment, ".slice")
    case Some(suffix) =>
      var at := LastIndex(suffix, "-pod");
      if at < 0 && !HasPrefix(suffix, "pod") then None
      else
        var uid := if at >= 0 then suffix[at + 4..] else suffix[3..];
        if uid == "" then None else Some((ReplaceChar(uid, '_', '-'), Systemd))
    case None =>
      if !HasPrefix(segment, "pod") || segment[3..] == "" then None else Some((segment[3..], Cgroupfs))
  }

  /** The first entry whose prefix the body carries. */
  function FindRuntime(table: seq<RuntimePrefix>, body: string): (r: Option<RuntimePrefix>)
    ensures r.Some? ==> r.value in table && HasPrefix(body, r.value.prefix)
    ensures r == None ==> forall entry | entry in table :: !HasPrefix(body, entry.prefix)
  {
    if table == [] then None
    else if HasPrefix(body, table[0].prefix) then Some(table[0])
    else FindRuntime(table[1..], body)
  }

  lemma FindRuntimeFrom(table: seq<RuntimePrefix>, i: nat, body: string)
    requires i < |table|
    ensures FindRuntime(table[i..], body) ==
            if HasPrefix(body, table[i].prefix) then Some(table[i]) else FindRuntime(table[i + 1..], body)
  {
    hide HasPrefix;
    assert table[i..][0] == table[i] && table[i..][1..] == table[i + 1..];
  }

  lemma FindRuntimeInNone(body: string)
    ensures FindRuntime(RUNTIME_PREFIXES[|RUNTIME_PREFIXES|..], body) == None
  {
  }

  function ContainerIn(table: seq<RuntimePrefix>, segment: string, driver: Driver): Option<(string, Runtime)> {
    if driver == Systemd then
      match CutSuffix(segment, ".scope")
      case None => None
      case Some(body) =>
        match FindRuntime(table, body)
        case None => None
        case Some(entry) =>
          if body == entry.prefix then None else Some((body[|entry.prefix|..], entry.runtime))
    else if segment == "" || Contains(segment, ".") || HasPrefix(segment, "pod") then None
    else Some((segment, UnknownRuntime))
  }

  /** The container ID in a segment, and its runtime. */
  method ParseContainerSegment(segment: string, driver: Driver) returns (r: Option<(string, Runtime)>)
    ensures r == ContainerIn(RUNTIME_PREFIXES, segment, driver)
  {
    if driver == Systemd {
      var body := CutSuffix(segment, ".scope");
      if body == None {
        return None;
      }
      hide FindRuntime;
      for i := 0 to |RUNTIME_PREFIXES|
        invariant FindRuntime(RUNTIME_PREFIXES, body.value) == FindRuntime(RUNTIME_PREFIXES[i..], body.value)
      {
        FindRuntimeFrom(RUNTIME_PREFIXES, i, body.value);
        var id := CutPrefix(body.value, RUNTIME_PREFIXES[i].prefix);
        if id.Some? {
          return if id.value == "" then None else Some((id.value, RUNTIME_PREFIXES[i].runtime));
        }
      }
      FindRuntimeInNone(body.value);
      return None;
    }
    if segment == "" || Contains(segment, ".") || HasPrefix(segment, "pod") {
      return None;
    }
    return Some((segment, UnknownRuntime));
  }

  /** What parseQoS reads in one segment. */
  function TierName(segment: string, driver: Driver): string {
    if driver == Systemd then
      var name := TrimSuffix(segment, ".slice");
      var start := LastIndex(name, "kubepods-");
      if start >= 0 then name[start + 9..] else name
    else segment
  }

  function TierOf(segment: string, driver: Driver): Option<QoSClass> {
    var name := ToLower(TierName(segment, driver));
    if name == "burstable" then Some(Burstable)
    else if name == "besteffort" then Some(BestEffort)
    else None
  }

  function OrElse<T>(first: Option<T>, second: Option<T>): Option<T> {
    if first.Some? then first else second
  }

  function FirstTier(segments: seq<string>, driver: Driver): Option<QoSClass> {
    if segments == [] then None
    else OrElse(TierOf(segments[0], driver), FirstTier(segments[1..], driver))
  }

  /** A segment is never named after the Guaranteed tier. */
  lemma {:induction false} NamedTiers(segments: seq<string>, driver: Driver)
    ensures FirstTier(segments, driver) in {None, Some(Burstable), Some(BestEffort)}
  {
    hide TierName;
    if segments != [] {
      NamedTiers(segments[1..], driver);
    }
  }

  function QoSOf(segments: seq<string>, driver: Driver): QoSClass {
    match FirstTier(segments, driver)
    case Some(tier) => tier
    case None => if InTree(segments) then Guaranteed else UnknownQoS
  }

  /** The tier encoded in the path. */
  method ParseQoS(segments: seq<string>, driver: Driver) returns (qos: QoSClass)
    ensures qos == QoSOf(segments, driver)
  {
    for i := 0 to |segments|
      invariant FirstTier(segments, driver) == FirstTier(segments[i..], driver)
    {
      var tier := TierOf(segments[i], driver);
      if tier.Some? {
        return tier.value;
      }
    }
    var inside := AnyInTree(segments);
    return if inside then Guaranteed else UnknownQoS;
  }

  function ContainerScopeOf(segments: seq<string>): Option<Scope> {
    if |segments| < 2 then None
    else
      match ParsePodSegment(segments[|segments| - 2])
      case None => None
      case Some((uid, driver)) =>
        match ContainerIn(RUNTIME_PREFIXES, segments[|segments| - 1], driver)
        case None => None
        case Some((id, runtime)) =>
          Some(Scope(uid, id, ContainerScope, QoSOf(segments, driver), driver, runtime, ""))
  }

  function PodScopeOf(segments: seq<string>): Option<Scope> {
    if !InTree(segments) then None
    else
      match ParsePodSegment(segments[|segments| - 1])
      case None => None
      case Some((uid, driver)) =>
        Some(Scope(uid, "", PodScope, QoSOf(segments, driver), driver, UnknownRuntime, ""))
  }

  function ScopeOf(segments: seq<string>): Option<Scope> {
    if ContainerScopeOf(segments).Some? then ContainerScopeOf(segments) else PodScopeOf(segments)
  }

  /** The identity a path encodes. */
  function Parse(path: string): Option<Scope> {
    match ScopeOf(Segments(path))
    case None => None
    case Some(scope) => Some(scope.(cgroupPath := path))
  }

  method ParseContainerScope(segments: seq<string>) returns (scope: Option<Scope>)
    ensures scope == ContainerScopeOf(segments)
  {
    if |segments| < 2 {
      return None;
    }
    var pod := ParsePodSegment(segments[|segments| - 2]);
    if pod == None {
      return None;
    }
    var (uid, driver) := pod.value;
    var container := ParseContainerSegment(segments[|segments| - 1], driver);
    if container == None {
      return None;
    }
    var (id, runtime) := container.value;
    var qos := ParseQoS(segments, driver);
    return Some(Scope(uid, id, ContainerScope, qos, driver, runtime, ""));
  }

  method ParsePodScope(segments: seq<string>) returns (scope: Option<Scope>)
    ensures scope == PodScopeOf(segments)
  {
    var inside := AnyInTree(segments);
    if !inside {
      return None;
    }
    var pod := ParsePodSegment(segments[|segments| - 1]);
    if pod == None {
      return None;
    }
    var (uid, driver) := pod.value;
    var qos := ParseQoS(segments, driver);
    return Some(Scope(uid, "", PodScope, qos, driver, UnknownRuntime, ""));
  }

  /** The container reading first, the pod reading only when that fails. */
  method ParseCgroupPath(path: string) returns (scope: Option<Scope>)
    ensures scope == Parse(path)
  {
    var segments := SplitPath(path);
    if |segments| == 0 {
      return None;
    }
    scope := ParseContainerScope(segments);
    if scope == None {
      scope := ParsePodScope(segments);
    }
    if scope.Some? {
      scope := Some(scope.value.(cgroupPath := path));
    }
  }
}
