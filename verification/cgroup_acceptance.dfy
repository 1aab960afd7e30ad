/** Which paths are accepted at all, spelled out on their raw names. */
module CgroupAcceptance {
  import opened Common
  import opened GoStrings
  import opened CgroupPath
  import opened CgroupLaws

  predicate NamesSystemdPod(segment: string) {
    && HasSuffix(segment, ".slice")
    && var name := segment[..|segment| - 6];
       if Contains(name, "-pod") then !HasSuffix(name, "-pod") else HasPrefix(name, "pod") && name != "pod"
  }

  predicate NamesCgroupfsPod(segment: string) {
    !HasSuffix(segment, ".slice") && HasPrefix(segment, "pod") && segment != "pod"
  }

  predicate NamesSystemdContainer(segment: string) {
    && HasSuffix(segment, ".scope")
    && var body := segment[..|segment| - 6];
       || Extends(body, "cri-containerd-")
       || Extends(body, "containerd-")
       || Extends(body, "crio-")
       || Extends(body, "docker-")
  }

  predicate Extends(s: string, prefix: string) {
    HasPrefix(s, prefix) && s != prefix
  }

  predicate NamesCgroupfsContainer(segment: string) {
    segment != "" && '.' !in segment && !HasPrefix(segment, "pod")
  }

  /** The last two names are a pod's and a container's, in one driver's style. */
  predicate EndsInContainer(segments: seq<string>) {
    var n := |segments|;
    && n >= 2
    && (|| (NamesSystemdPod(segments[n - 2]) && NamesSystemdContainer(segments[n - 1]))
        || (NamesCgroupfsPod(segments[n - 2]) && NamesCgroupfsContainer(segments[n - 1])))
  }

  /** The last name is a pod's. */
  predicate EndsInPod(segments: seq<string>) {
    var n := |segments|;
    n >= 1 && (NamesSystemdPod(segments[n - 1]) || NamesCgroupfsPod(segments[n - 1]))
  }

  lemma PodNameExactly(segment: string)
    ensures var pod := ParsePodSegment(segment);
      && (pod.Some? <==> NamesSystemdPod(segment) || NamesCgroupfsPod(segment))
      && (pod.Some? ==> (pod.value.1 == Systemd <==> HasSuffix(segment, ".slice")))
  {
    if HasSuffix(segment, ".slice") {
      LastIndexAtEnd(segment[..|segment| - 6], "-pod");
    }
  }

  /** The last occurrence is at the very end exactly when the string ends so. */
  lemma LastIndexAtEnd(s: string, sub: string)
    requires sub != ""
    ensures LastIndex(s, sub) >= 0 ==> (s[LastIndex(s, sub) + |sub|..] == "" <==> HasSuffix(s, sub))
  {
    if HasSuffix(s, sub) {
      assert OccursAt(s, sub, |s| - |sub|);
    }
  }

  lemma ContainsDot(segment: string)
    ensures Contains(segment, ".") <==> '.' in segment
  {
    var at := LastIndex(segment, ".");
    assert at >= 0 ==> segment[at..at + 1][0] == segment[at];
    if '.' in segment {
      var i :| 0 <= i < |segment| && segment[i] == '.';
      assert segment[i..i + 1] == ".";
      ContainsAt(segment, ".", i);
    }
  }

  lemma ContainerNameExactly(segment: string, driver: Driver)
    ensures ContainerIn(RUNTIME_PREFIXES, segment, driver).Some?
      <==> if driver == Systemd then NamesSystemdContainer(segment) else NamesCgroupfsContainer(segment)
  {
    ContainsDot(segment);
    if driver == Systemd && HasSuffix(segment, ".scope") {
      RuntimeExactly(segment[..|segment| - 6]);
    }
  }

  /** No table prefix begins another, so the first that fits is the only one. */
  lemma RuntimeExactly(body: string)
    ensures var entry := FindRuntime(RUNTIME_PREFIXES, body);
      entry.Some? && body != entry.value.prefix <==>
        || Extends(body, "cri-containerd-")
        || Extends(body, "containerd-")
        || Extends(body, "crio-")
        || Extends(body, "docker-")
  {
    var table := RUNTIME_PREFIXES;
    hide FindRuntime, HasPrefix;
    PrefixLetters(body);
    FirstOfFour(table, body);
  }

  lemma FirstOfFour(table: seq<RuntimePrefix>, body: string)
    requires |table| == 4
    ensures FindRuntime(table, body) ==
      if HasPrefix(body, table[0].prefix) then Some(table[0])
      else if HasPrefix(body, table[1].prefix) then Some(table[1])
      else if HasPrefix(body, table[2].prefix) then Some(table[2])
      else if HasPrefix(body, table[3].prefix) then Some(table[3])
      else None
  {
    hide HasPrefix;
    var one, two := table[1..], table[1..][1..];
    assert two[1..][0] == table[3] && two[1..][1..] == [];
    assert two[0] == table[2] && one[0] == table[1];
    assert FindRuntime(two[1..], body) == if HasPrefix(body, table[3].prefix) then Some(table[3]) else None;
    assert FindRuntime(two, body) ==
      if HasPrefix(body, table[2].prefix) then Some(table[2]) else FindRuntime(two[1..], body);
  }

  /** The letters that tell the four prefixes apart. */
  lemma PrefixLetters(body: string)
    ensures HasPrefix(body, "cri-containerd-") ==> |body| >= 4 && body[0] == 'c' && body[1] == 'r' && body[3] == '-'
    ensures HasPrefix(body, "containerd-") ==> |body| >= 4 && body[0] == 'c' && body[1] == 'o'
    ensures HasPrefix(body, "crio-") ==> |body| >= 4 && body[0] == 'c' && body[1] == 'r' && body[3] == 'o'
    ensures HasPrefix(body, "docker-") ==> |body| >= 4 && body[0] == 'd'
  {
  }

  /** The whole parser, on the raw names: a path is accepted exactly when it ends in
      a pod and a container, wherever it lies, or in a pod inside the kubelet's
      tree; and the former are the container scopes. */
  lemma AcceptedExactly(path: string)
    ensures var segments := Segments(path);
      && (Parse(path).Some? <==> EndsInContainer(segments) || (InTree(segments) && EndsInPod(segments)))
      && (Parse(path).Some? ==> (Parse(path).value.kind == ContainerScope <==> EndsInContainer(segments)))
  {
    hide ParsePodSegment, ContainerIn, Segments, InTree, QoSOf;
    hide NamesSystemdPod, NamesCgroupfsPod, NamesSystemdContainer, NamesCgroupfsContainer;
    var segments := Segments(path);
    var n := |segments|;
    EmptyNotInTree();
    if n >= 1 {
      PodNameExactly(segments[n - 1]);
    }
    if n >= 2 {
      PodNameExactly(segments[n - 2]);
      OneDriver(segments[n - 2]);
      ContainerNameExactly(segments[n - 1], Systemd);
      ContainerNameExactly(segments[n - 1], Cgroupfs);
    }
  }

  lemma OneDriver(segment: string)
    ensures NamesSystemdPod(segment) ==> HasSuffix(segment, ".slice")
    ensures NamesCgroupfsPod(segment) ==> !HasSuffix(segment, ".slice")
  {
  }

  /** Outside the kubelet's tree, where everything is said to be rejected, a path is
      rejected exactly when it does not end in a pod and a container. */
  lemma RejectedOutsideExactly(path: string)
    requires !InTree(Segments(path))
    ensures Parse(path) == None <==> !EndsInContainer(Segments(path))
  {
    hide Parse, Segments, InTree, EndsInContainer, EndsInPod;
    AcceptedExactly(path);
  }

  // ---- the paths of other programs ----

  lemma KubepodsHasU(segment: string)
    ensures Contains(segment, "kubepods") ==> 'u' in segment
  {
    var at := LastIndex(segment, "kubepods");
    assert at >= 0 ==> segment[at..at + 8][1] == segment[at + 1];
  }

  lemma NoneInTree(segments: seq<string>)
    requires forall s | s in segments :: 'u' !in s
    ensures !InTree(segments)
  {
    hide Contains;
    forall i | 0 <= i < |segments|
      ensures !Contains(segments[i], "kubepods")
    {
      assert segments[i] in segments;
      KubepodsHasU(segments[i]);
    }
  }

  lemma {:induction false} NoTier(segments: seq<string>, driver: Driver)
    requires forall s | s in segments :: TierOf(s, driver) == None
    ensures FirstTier(segments, driver) == None
  {
    hide TierOf;
    if segments != [] {
      assert segments[0] in segments;
      NoTier(segments[1..], driver);
    }
  }

  /** A tier's name has a u, and can only be read out of a segment that has one. */
  lemma TierHasU(segment: string, driver: Driver)
    requires 'u' !in segment && 'U' !in segment && 'b' !in segment && 'B' !in segment
    ensures TierOf(segment, driver) == None
  {
    var name := TierName(segment, driver);
    assert forall c | c in name :: c in segment;
    assert "burstable"[0] == 'b' && "besteffort"[0] == 'b';
    if |name| > 0 {
      assert name[0] in name && ToLower(name)[0] == LowerChar(name[0]);
    }
  }

  /** A name that cannot say anything of the kubelet: kubepods and both tiers need
      one of these letters. */
  predicate Plain(s: string) {
    WellFormedSegment(s) && 'u' !in s && 'U' !in s && 'b' !in s && 'B' !in s
  }

  /** What is read of a path of plain names. */
  lemma ReadOutside(segments: seq<string>, uid: string, driver: Driver, id: string, runtime: Runtime)
    requires |segments| >= 2 && forall s | s in segments :: Plain(s)
    requires ParsePodSegment(segments[|segments| - 2]) == Some((uid, driver))
    requires ContainerIn(RUNTIME_PREFIXES, segments[|segments| - 1], driver) == Some((id, runtime))
    ensures var path := PathOf(segments);
      && !InTree(Segments(path))
      && Parse(path) == Some(Scope(uid, id, ContainerScope, UnknownQoS, driver, runtime, path))
  {
    hide PathOf, Segments, InTree, ParsePodSegment, ContainerIn, FirstTier, WellFormedSegments, Plain, ScopeOf;
    PlainSegments(segments, driver);
    SegmentsOfPath(segments);
    ScopeOutside(segments, uid, driver, id, runtime);
  }

  lemma ScopeOutside(segments: seq<string>, uid: string, driver: Driver, id: string, runtime: Runtime)
    requires |segments| >= 2 && !InTree(segments) && FirstTier(segments, driver) == None
    requires ParsePodSegment(segments[|segments| - 2]) == Some((uid, driver))
    requires ContainerIn(RUNTIME_PREFIXES, segments[|segments| - 1], driver) == Some((id, runtime))
    ensures ScopeOf(segments) == Some(Scope(uid, id, ContainerScope, UnknownQoS, driver, runtime, ""))
  {
    hide InTree, ParsePodSegment, ContainerIn, FirstTier;
  }

  lemma PlainSegments(segments: seq<string>, driver: Driver)
    requires forall s | s in segments :: Plain(s)
    ensures WellFormedSegments(segments) && !InTree(segments) && FirstTier(segments, driver) == None
  {
    hide InTree, TierOf, FirstTier, WellFormedSegment;
    forall s | s in segments
      ensures WellFormedSegment(s) && TierOf(s, driver) == None && 'u' !in s
    {
      TierHasU(s, driver);
    }
    NoneInTree(segments);
    NoTier(segments, driver);
  }

  /** Two paths of other programs that are taken for a pod's container, one in each
      driver's style, with no kubelet tree in sight. */
  lemma ForeignPathsAccepted()
    ensures var path := "/machine/podman/worker";
      && !InTree(Segments(path))
      && Parse(path) == Some(Scope("man", "worker", ContainerScope, UnknownQoS, Cgroupfs, UnknownRuntime, path))
    ensures var path := "/pod1.slice/docker-2.scope";
      && !InTree(Segments(path))
      && Parse(path) == Some(Scope("1", "2", ContainerScope, UnknownQoS, Systemd, Docker, path))
  {
    hide *;
    PodmanPath();
    PodmanNames();
    PlainNames();
    ReadOutside(["machine", "podman", "worker"], "man", Cgroupfs, "worker", UnknownRuntime);
    SlicePath();
    SliceNames();
    DockerName();
    ReadOutside(["pod1.slice", "docker-2.scope"], "1", Systemd, "2", Docker);
  }

  lemma PlainNames()
    ensures Plain("machine") && Plain("podman") && Plain("worker")
    ensures Plain("pod1.slice") && Plain("docker-2.scope")
  {
    hide Plain;
    PlainName("machine");
    PlainName("podman");
    PlainName("worker");
    PlainName("pod1.slice");
    PlainName("docker-2.scope");
  }

  lemma PlainName(s: string)
    requires s != "" && forall i | 0 <= i < |s| :: s[i] !in "/uUbB"
    ensures Plain(s)
  {
    assert '/' in "/uUbB" && 'u' in "/uUbB" && 'U' in "/uUbB" && 'b' in "/uUbB" && 'B' in "/uUbB";
  }

  lemma PodmanPath()
    ensures PathOf(["machine", "podman", "worker"]) == "/machine/podman/worker"
  {
    var segments := ["machine", "podman", "worker"];
    assert segments[..2] == ["machine", "podman"] && segments[..2][..1] == ["machine"] && segments[..2][..1][..0] == [];
    assert ["machine"][..0] == [] && PathOf(["machine"]) == "/machine";
    assert PathOf(["machine", "podman"]) == "/machine" + "/" + "podman";
  }

  lemma SlicePath()
    ensures PathOf(["pod1.slice", "docker-2.scope"]) == "/pod1.slice/docker-2.scope"
  {
    var segments := ["pod1.slice", "docker-2.scope"];
    assert segments[..1] == ["pod1.slice"] && segments[..1][..0] == [];
    assert PathOf(segments[..1]) == "/pod1.slice";
  }

  lemma PodmanNames()
    ensures ParsePodSegment("podman") == Some(("man", Cgroupfs))
    ensures ContainerIn(RUNTIME_PREFIXES, "worker", Cgroupfs) == Some(("worker", UnknownRuntime))
  {
    assert "podman"[0] != ".slice"[0] && "worker"[0] != 'p';
    assert "podman"[..3] == "pod" && "podman"[3..] == "man";
    ContainsDot("worker");
  }

  lemma SliceNames()
    ensures ParsePodSegment("pod1.slice") == Some(("1", Systemd))
  {
    var segment := "pod1.slice";
    assert segment[4..] == ".slice" && segment[..4] == "pod1";
    assert "pod1"[..3] == "pod" && "pod1"[3..] == "1";
    assert LastIndex("pod1", "-pod") < 0 by {
      assert "pod1"[0..4][0] != "-pod"[0];
    }
    assert ReplaceChar("1", '_', '-') == "1";
  }

  lemma DockerName()
    ensures ContainerIn(RUNTIME_PREFIXES, "docker-2.scope", Systemd) == Some(("2", Docker))
  {
    assert "docker-2.scope" == "docker-2" + ".scope" && "docker-2" == "docker-" + "2";
    RuntimeScopes("2");
    hide ContainerIn;
  }

  // ---- which runtime a name tells of ----

  /** The part of a systemd container name that stands before ".scope". */
  lemma ScopeBody(prefix: string, id: string)
    ensures CutSuffix(prefix + id + ".scope", ".scope") == Some(prefix + id)
    ensures HasPrefix(prefix + id, prefix) && (prefix + id)[|prefix|..] == id
    ensures id != "" ==> prefix + id != prefix
  {
    var body := prefix + id;
    assert (body + ".scope")[|body|..] == ".scope" && (body + ".scope")[..|body|] == body;
  }

  lemma PrefixedScope(prefix: string, id: string, runtime: Runtime)
    requires id != "" && FindRuntime(RUNTIME_PREFIXES, prefix + id) == Some(RuntimePrefix(prefix, runtime))
    ensures ContainerIn(RUNTIME_PREFIXES, prefix + id + ".scope", Systemd) == Some((id, runtime))
  {
    hide FindRuntime, CutSuffix, HasPrefix;
    ScopeBody(prefix, id);
  }

  lemma FindsRuntimes(body: string)
    ensures HasPrefix(body, "cri-containerd-") ==>
              FindRuntime(RUNTIME_PREFIXES, body) == Some(RuntimePrefix("cri-containerd-", Containerd))
    ensures HasPrefix(body, "containerd-") ==>
              FindRuntime(RUNTIME_PREFIXES, body) == Some(RuntimePrefix("containerd-", Containerd))
    ensures HasPrefix(body, "crio-") ==>
              FindRuntime(RUNTIME_PREFIXES, body) == Some(RuntimePrefix("crio-", CRIO))
    ensures HasPrefix(body, "docker-") ==>
              FindRuntime(RUNTIME_PREFIXES, body) == Some(RuntimePrefix("docker-", Docker))
  {
    hide FindRuntime, HasPrefix;
    PrefixLetters(body);
    FirstOfFour(RUNTIME_PREFIXES, body);
  }

  /** The four names a runtime's container goes by under systemd. */
  lemma RuntimeScopes(id: string)
    requires id != ""
    ensures ContainerIn(RUNTIME_PREFIXES, "cri-containerd-" + id + ".scope", Systemd) == Some((id, Containerd))
    ensures ContainerIn(RUNTIME_PREFIXES, "containerd-" + id + ".scope", Systemd) == Some((id, Containerd))
    ensures ContainerIn(RUNTIME_PREFIXES, "crio-" + id + ".scope", Systemd) == Some((id, CRIO))
    ensures ContainerIn(RUNTIME_PREFIXES, "docker-" + id + ".scope", Systemd) == Some((id, Docker))
  {
    hide FindRuntime, ContainerIn, HasPrefix;
    RuntimeScope("cri-containerd-", id);
    RuntimeScope("containerd-", id);
    RuntimeScope("crio-", id);
    RuntimeScope("docker-", id);
    PrefixedScope("cri-containerd-", id, Containerd);
    PrefixedScope("containerd-", id, Containerd);
    PrefixedScope("crio-", id, CRIO);
    PrefixedScope("docker-", id, Docker);
  }

  lemma RuntimeScope(prefix: string, id: string)
    ensures HasPrefix(prefix + id, prefix)
    ensures prefix == "cri-containerd-" || prefix == "containerd-" ==>
              FindRuntime(RUNTIME_PREFIXES, prefix + id) == Some(RuntimePrefix(prefix, Containerd))
    ensures prefix == "crio-" ==> FindRuntime(RUNTIME_PREFIXES, prefix + id) == Some(RuntimePrefix(prefix, CRIO))
    ensures prefix == "docker-" ==> FindRuntime(RUNTIME_PREFIXES, prefix + id) == Some(RuntimePrefix(prefix, Docker))
  {
    hide FindRuntime, HasPrefix;
    ScopeBody(prefix, id);
    FindsRuntimes(prefix + id);
  }

  /** The container and its runtime as a whole path tells them. */
  predicate ReadAs(path: string, id: string, runtime: Runtime) {
    && Parse(path).Some?
    && Parse(path).value.kind == ContainerScope && Parse(path).value.driver == Systemd
    && Parse(path).value.containerID == id && Parse(path).value.runtime == runtime
  }

  /** Any path that ends in a systemd pod's name and a container's, told from the
      container's name alone. */
  lemma RuntimeOfPath(path: string, above: seq<string>, pod: string, container: string, id: string)
    requires Segments(path) == above + [pod, container] && NamesSystemdPod(pod) && id != ""
    ensures container == "cri-containerd-" + id + ".scope" ==> ReadAs(path, id, Containerd)
    ensures container == "containerd-" + id + ".scope" ==> ReadAs(path, id, Containerd)
    ensures container == "crio-" + id + ".scope" ==> ReadAs(path, id, CRIO)
    ensures container == "docker-" + id + ".scope" ==> ReadAs(path, id, Docker)
  {
    hide Segments, ParsePodSegment, ContainerIn, QoSOf, InTree, NamesSystemdPod, NamesCgroupfsPod;
    PodNameExactly(pod);
    OneDriver(pod);
    RuntimeScopes(id);
  }

  /** And only those names: the runtime of any accepted systemd container is told by
      how its name begins. */
  lemma RuntimeTold(path: string)
    requires Parse(path).Some? && Parse(path).value.kind == ContainerScope && Parse(path).value.driver == Systemd
    ensures Segments(path) != []
    ensures var name, runtime := Segments(path)[|Segments(path)| - 1], Parse(path).value.runtime;
      && (runtime == Containerd <==> HasPrefix(name, "cri-containerd-") || HasPrefix(name, "containerd-"))
      && (runtime == CRIO <==> HasPrefix(name, "crio-"))
      && (runtime == Docker <==> HasPrefix(name, "docker-"))
  {
    hide ParsePodSegment, ContainerIn, QoSOf, InTree, Segments, HasPrefix;
    var segments := Segments(path);
    EmptyNotInTree();
    if |segments| >= 2 {
      NameTells(segments[|segments| - 1]);
    }
  }

  lemma NameTells(name: string)
    ensures var container := ContainerIn(RUNTIME_PREFIXES, name, Systemd);
      container.Some? ==>
        && (container.value.1 == Containerd <==> HasPrefix(name, "cri-containerd-") || HasPrefix(name, "containerd-"))
        && (container.value.1 == CRIO <==> HasPrefix(name, "crio-"))
        && (container.value.1 == Docker <==> HasPrefix(name, "docker-"))
  {
    hide FindRuntime;
    if HasSuffix(name, ".scope") {
      var body := name[..|name| - 6];
      NoPrefixReachesScope(name);
      hide HasPrefix;
      PrefixLetters(body);
      FirstOfFour(RUNTIME_PREFIXES, body);
      FindsRuntimes(body);
    }
  }

  /** A prefix of a name that has none of ".scope"'s dot lies before it. */
  lemma NoPrefixReachesScope(name: string)
    requires HasSuffix(name, ".scope")
    ensures var body := name[..|name| - 6];
      && (HasPrefix(name, "cri-containerd-") <==> HasPrefix(body, "cri-containerd-"))
      && (HasPrefix(name, "containerd-") <==> HasPrefix(body, "containerd-"))
      && (HasPrefix(name, "crio-") <==> HasPrefix(body, "crio-"))
      && (HasPrefix(name, "docker-") <==> HasPrefix(body, "docker-"))
  {
    DotlessPrefix(name, "cri-containerd-");
    DotlessPrefix(name, "containerd-");
    DotlessPrefix(name, "crio-");
    DotlessPrefix(name, "docker-");
  }

  lemma DotlessPrefix(name: string, prefix: string)
    requires HasSuffix(name, ".scope") && '.' !in prefix
    ensures HasPrefix(name, prefix) <==> HasPrefix(name[..|name| - 6], prefix)
  {
    var n := |name| - 6;
    assert name[n] == name[n..][0] == '.';
    assert |prefix| > n ==> prefix[n] in prefix;
    if HasPrefix(name, prefix) {
      assert name[..n][..|prefix|] == prefix;
    }
  }

  // ---- how a tier may be spelt ----

  /** Letter by letter one of the two spellings. */
  predicate SpeltAs(s: string, lower: string, upper: string)
    requires |lower| == |upper|
  {
    |s| == |lower| && forall i | 0 <= i < |s| :: s[i] == lower[i] || s[i] == upper[i]
  }

  predicate Cases(lower: string, upper: string) {
    && |lower| == |upper|
    && forall i | 0 <= i < |lower| :: 'a' <= lower[i] <= 'z' && upper[i] as int == lower[i] as int - 32
  }

  lemma SpeltExactly(s: string, lower: string, upper: string)
    requires Cases(lower, upper)
    ensures ToLower(s) == lower <==> SpeltAs(s, lower, upper)
  {
    assert ToLower(s) == lower ==> forall i | 0 <= i < |s| :: LowerChar(s[i]) == lower[i];
    if SpeltAs(s, lower, upper) {
      assert forall i | 0 <= i < |s| :: ToLower(s)[i] == lower[i];
    }
  }

  lemma TierCases()
    ensures Cases("burstable", "BURSTABLE") && Cases("besteffort", "BESTEFFORT")
  {
  }

  /** Under cgroupfs a segment names a tier exactly when it is the tier's name, in any
      mixture of case. */
  lemma TierInAnyCase(segment: string)
    ensures |"burstable"| == |"BURSTABLE"| && |"besteffort"| == |"BESTEFFORT"|
    ensures TierOf(segment, Cgroupfs) == Some(Burstable) <==> SpeltAs(segment, "burstable", "BURSTABLE")
    ensures TierOf(segment, Cgroupfs) == Some(BestEffort) <==> SpeltAs(segment, "besteffort", "BESTEFFORT")
    ensures TierOf(segment, Cgroupfs) in {None, Some(Burstable), Some(BestEffort)}
  {
    hide SpeltAs, ToLower, Cases;
    TierCases();
    SpeltExactly(segment, "burstable", "BURSTABLE");
    SpeltExactly(segment, "besteffort", "BESTEFFORT");
    assert "burstable"[1] != "besteffort"[1];
  }

  /** The i-th segment names this tier, and none before it names any. */
  predicate NamedFirst(segments: seq<string>, driver: Driver, tier: QoSClass, i: nat) {
    && i < |segments| && TierOf(segments[i], driver) == Some(tier)
    && forall j | 0 <= j < i :: TierOf(segments[j], driver) == None
  }

  lemma {:induction false} FirstTierAt(segments: seq<string>, driver: Driver) returns (i: nat)
    ensures FirstTier(segments, driver).Some? ==> NamedFirst(segments, driver, FirstTier(segments, driver).value, i)
    ensures FirstTier(segments, driver) == None ==> forall s | s in segments :: TierOf(s, driver) == None
  {
    hide TierOf;
    i := 0;
    if segments != [] {
      assert segments == [segments[0]] + segments[1..];
      var k := FirstTierAt(segments[1..], driver);
      if TierOf(segments[0], driver) == None && FirstTier(segments, driver).Some? {
        LaterNamed(segments, driver, FirstTier(segments, driver).value, k);
        i := k + 1;
      }
    }
  }

  lemma LaterNamed(segments: seq<string>, driver: Driver, tier: QoSClass, i: nat)
    requires segments != [] && TierOf(segments[0], driver) == None && NamedFirst(segments[1..], driver, tier, i)
    ensures NamedFirst(segments, driver, tier, i + 1)
  {
    hide TierOf;
    forall j | 0 <= j < i + 1
      ensures TierOf(segments[j], driver) == None
    {
      assert j > 0 ==> segments[j] == segments[1..][j - 1];
    }
  }

  /** The tier of a path is the one its first tier name says; with none, Guaranteed
      inside the kubelet's tree and Unknown outside. */
  lemma TierIsFirstNamed(segments: seq<string>, driver: Driver)
    ensures QoSOf(segments, driver) == Burstable <==> exists i: nat :: NamedFirst(segments, driver, Burstable, i)
    ensures QoSOf(segments, driver) == BestEffort <==> exists i: nat :: NamedFirst(segments, driver, BestEffort, i)
    ensures (forall s | s in segments :: TierOf(s, driver) == None) ==>
              QoSOf(segments, driver) == if InTree(segments) then Guaranteed else UnknownQoS
  {
    hide TierOf, InTree;
    var first := FirstTierAt(segments, driver);
    NamedTiers(segments, driver);
    forall i: nat, j: nat, t, u | NamedFirst(segments, driver, t, i) && NamedFirst(segments, driver, u, j)
      ensures t == u
    {
    }
    forall i: nat, t | NamedFirst(segments, driver, t, i)
      ensures FirstTier(segments, driver) == Some(t)
    {
      assert segments[i] in segments;
    }
  }
}
