/** The paths the kubelet writes under each cgroup driver, and the exact
    conditions under which the parser undoes them. */
module CgroupPrinter {
  import opened Common
  import opened GoStrings
  import opened CgroupPath

  // ---- what the kubelet writes ----

  /** The path component naming a tier; Guaranteed pods have none. */
  function TierWord(tier: QoSClass): string
    requires tier == Burstable || tier == BestEffort
  {
    if tier == Burstable then "burstable" else "besteffort"
  }

  predicate KubeletTier(tier: QoSClass) {
    tier != UnknownQoS
  }

  /** The unit name a pod slice extends: flat is the parent slice that systemd
      flattens into every child's name, such as "kubelet-". */
  function SystemdBase(flat: string, tier: QoSClass): string
    requires KubeletTier(tier)
  {
    if tier == Guaranteed then flat + "kubepods" else flat + "kubepods-" + TierWord(tier)
  }

  function SystemdPodName(flat: string, tier: QoSClass, uid: string): string
    requires KubeletTier(tier)
  {
    SystemdBase(flat, tier) + "-pod" + ReplaceChar(uid, '-', '_')
  }

  function SystemdSegments(
    ancestors: seq<string>, flat: string, tier: QoSClass, uid: string, container: Option<(RuntimePrefix, string)>)
    : seq<string>
    requires KubeletTier(tier)
  {
    ancestors
    + [flat + "kubepods" + ".slice"]
    + (if tier == Guaranteed then [] else [SystemdBase(flat, tier) + ".slice"])
    + [SystemdPodName(flat, tier, uid) + ".slice"]
    + (match container
       case None => []
       case Some((entry, id)) => [entry.prefix + id + ".scope"])
  }

  function CgroupfsSegments(ancestors: seq<string>, tier: QoSClass, uid: string, container: Option<string>): seq<string>
    requires KubeletTier(tier)
  {
    ancestors
    + ["kubepods"]
    + (if tier == Guaranteed then [] else [TierWord(tier)])
    + ["pod" + uid]
    + (match container
       case None => []
       case Some(id) => [id])
  }

  // ---- single segments ----

  lemma CutsSuffix(s: string, x: string)
    ensures CutSuffix(s + x, x) == Some(s) && TrimSuffix(s + x, x) == s
  {
    assert (s + x)[|s|..] == x;
    assert (s + x)[..|s|] == s;
  }

  lemma DifferentSuffix(s: string, x: string, y: string)
    requires |x| == |y| && x != y
    ensures !HasSuffix(s + x, y) && CutSuffix(s + x, y) == None && TrimSuffix(s + x, y) == s + x
  {
    assert (s + x)[|s|..] == x;
  }

  /** The pod separator of a systemd name is its last one, because an escaped UID
      has no dash. */
  lemma SystemdPodSegment(base: string, escaped: string)
    requires '-' !in escaped && escaped != ""
    ensures ParsePodSegment(base + "-pod" + escaped + ".slice") == Some((ReplaceChar(escaped, '_', '-'), Systemd))
  {
    var suffix := base + "-pod" + escaped;
    CutsSuffix(suffix, ".slice");
    assert OccursAt(suffix, "-pod", |base|) by {
      assert suffix[|base|..|base| + 4] == "-pod";
    }
    forall j | |base| < j <= |suffix| - 4
      ensures !OccursAt(suffix, "-pod", j)
    {
      assert suffix[j..j + 4][0] == suffix[j];
      assert suffix[j] == if j < |base| + 4 then "-pod"[j - |base|] else escaped[j - |base| - 4];
    }
    assert LastIndex(suffix, "-pod") == |base|;
    assert suffix[|base| + 4..] == escaped;
  }

  lemma Unescape(uid: string)
    ensures '-' !in ReplaceChar(uid, '-', '_')
    ensures ReplaceChar(ReplaceChar(uid, '-', '_'), '_', '-') == ReplaceChar(uid, '_', '-')
    ensures ReplaceChar(uid, '_', '-') == uid <==> '_' !in uid
  {
    var plain := ReplaceChar(uid, '_', '-');
    if '_' in uid {
      var i :| 0 <= i < |uid| && uid[i] == '_';
      assert plain[i] != uid[i];
    }
  }

  /** No entry's prefix begins another's, so at most one can match a body. */
  ghost predicate PrefixFree(table: seq<RuntimePrefix>) {
    forall e, f | e in table && f in table && e != f :: !(e.prefix <= f.prefix)
  }

  lemma DifferAt(a: string, b: string, k: nat)
    requires k < |a| && k < |b| && a[k] != b[k]
    ensures !(a <= b) && !(b <= a)
  {
  }

  lemma RuntimePrefixPair(i: nat, j: nat)
    requires i < j < |RUNTIME_PREFIXES|
    ensures !(RUNTIME_PREFIXES[i].prefix <= RUNTIME_PREFIXES[j].prefix)
    ensures !(RUNTIME_PREFIXES[j].prefix <= RUNTIME_PREFIXES[i].prefix)
  {
    var a, b := RUNTIME_PREFIXES[i].prefix, RUNTIME_PREFIXES[j].prefix;
    if i == 0 && j == 1 {
      DifferAt(a, b, 1);
    } else if i == 0 && j == 2 {
      DifferAt(a, b, 3);
    } else if j == 3 {
      DifferAt(a, b, 0);
    } else {
      DifferAt(a, b, 1);
    }
  }

  lemma RuntimePrefixesPrefixFree()
    ensures PrefixFree(RUNTIME_PREFIXES)
  {
    forall e, f | e in RUNTIME_PREFIXES && f in RUNTIME_PREFIXES && e != f
      ensures !(e.prefix <= f.prefix)
    {
      var i :| 0 <= i < |RUNTIME_PREFIXES| && RUNTIME_PREFIXES[i] == e;
      var j :| 0 <= j < |RUNTIME_PREFIXES| && RUNTIME_PREFIXES[j] == f;
      RuntimePrefixPair(if i < j then i else j, if i < j then j else i);
    }
  }

  lemma PrefixesCompare(a: string, b: string, s: string)
    requires a <= s && b <= s
    ensures a <= b || b <= a
  {
    if |a| <= |b| {
      assert a == s[..|a|] == b[..|a|];
    } else {
      assert b == s[..|b|] == a[..|b|];
    }
  }

  lemma FindsEntry(table: seq<RuntimePrefix>, entry: RuntimePrefix, id: string)
    requires PrefixFree(table) && entry in table
    ensures FindRuntime(table, entry.prefix + id) == Some(entry)
  {
    var body := entry.prefix + id;
    assert HasPrefix(body, entry.prefix);
    PrefixesCompare(entry.prefix, FindRuntime(table, body).value.prefix, body);
  }

  /** Two tables with the same entries give the same answers, whatever their
      order: cri-containerd- need not be tried before containerd-. */
  lemma TableOrderIrrelevant(table: seq<RuntimePrefix>, segment: string, driver: Driver)
    requires forall e :: e in table <==> e in RUNTIME_PREFIXES
    ensures ContainerIn(table, segment, driver) == ContainerIn(RUNTIME_PREFIXES, segment, driver)
  {
    RuntimePrefixesPrefixFree();
    if driver == Systemd && HasSuffix(segment, ".scope") {
      var body := CutSuffix(segment, ".scope").value;
      var found := FindRuntime(RUNTIME_PREFIXES, body);
      if found.Some? {
        var id := body[|found.value.prefix|..];
        assert body == found.value.prefix + id;
        FindsEntry(table, found.value, id);
      }
    }
  }

  lemma SystemdContainerSegment(entry: RuntimePrefix, id: string)
    requires entry in RUNTIME_PREFIXES && id != ""
    ensures ContainerIn(RUNTIME_PREFIXES, entry.prefix + id + ".scope", Systemd) == Some((id, entry.runtime))
  {
    CutsSuffix(entry.prefix + id, ".scope");
    RuntimePrefixesPrefixFree();
    FindsEntry(RUNTIME_PREFIXES, entry, id);
  }

  // ---- tiers ----

  lemma {:induction false} FirstTierConcat(a: seq<string>, b: seq<string>, driver: Driver)
    ensures FirstTier(a + b, driver) == OrElse(FirstTier(a, driver), FirstTier(b, driver))
  {
    hide TierOf;
    if a == [] {
      assert a + b == b;
    } else {
      FirstTierConcat(a[1..], b, driver);
      assert (a + b)[0] == a[0];
      assert (a + b)[1..] == a[1..] + b;
    }
  }

  /** A name whose last characters fit neither tier word names no tier. */
  lemma NoTierByEnding(segment: string, driver: Driver)
    requires var name := TierName(segment, driver);
      |name| >= 2 && (name[|name| - 1] == 's' || (name[|name| - 1] == 'e' && name[|name| - 2] == 'p'))
    ensures TierOf(segment, driver) == None
  {
    var name := TierName(segment, driver);
    var lower := ToLower(name);
    var n := |lower|;
    assert lower[n - 1] == name[n - 1] && (name[n - 2] == 'p' ==> lower[n - 2] == 'p');
    var b, e := "burstable", "besteffort";
    assert b[8] == 'e' && b[7] == 'l' && e[9] == 't';
  }

  /** Cutting after a dashed prefix cannot reach into a dash-free ending. */
  lemma EndingSurvives(name: string, body: string, ending: string)
    requires name == body + ending && '-' !in ending
    ensures var start := LastIndex(name, "kubepods-");
      start >= 0 ==> start + 9 <= |body|
  {
    var start := LastIndex(name, "kubepods-");
    if start >= 0 {
      assert name[start..start + 9][8] == name[start + 8];
      assert forall k | |body| <= k < |name| :: name[k] == ending[k - |body|];
    }
  }

  lemma RootSliceNoTier(flat: string)
    ensures TierOf(flat + "kubepods" + ".slice", Systemd) == None
  {
    var name := flat + "kubepods";
    CutsSuffix(name, ".slice");
    EndingSurvives(name, flat, "kubepods");
    NoTierByEnding(name + ".slice", Systemd);
  }

  lemma ScopeNoTier(body: string)
    ensures TierOf(body + ".scope", Systemd) == None
  {
    DifferentSuffix(body, ".scope", ".slice");
    EndingSurvives(body + ".scope", body, ".scope");
    NoTierByEnding(body + ".scope", Systemd);
  }

  /** Under a flattened parent, the tier follows the last "kubepods-". */
  lemma AnchoredName(flat: string, rest: string)
    requires forall j | 0 <= j < |rest| :: rest[j] == '-' ==> j >= 9 && rest[j - 8] != 'k'
    ensures LastIndex(flat + "kubepods-" + rest, "kubepods-") == |flat|
  {
    var s := flat + "kubepods-" + rest;
    assert s[|flat|..|flat| + 9] == "kubepods-";
    assert OccursAt(s, "kubepods-", |flat|);
    forall j | |flat| < j <= |s| - 9
      ensures !OccursAt(s, "kubepods-", j)
    {
      assert s[j..j + 9][8] == s[j + 8] && s[j..j + 9][0] == s[j];
      assert s[j + 8] == rest[j - 1 - |flat|];
      if s[j + 8] == '-' {
        assert s[j] == rest[j - |flat| - 9];
      }
    }
  }

  lemma LowerAlready(s: string)
    requires forall i | 0 <= i < |s| :: LowerChar(s[i]) == s[i]
    ensures ToLower(s) == s
  {
  }

  lemma BurstableIsLower()
    ensures ToLower("burstable") == "burstable"
  {
    var s := "burstable";
    assert s[0] == 'b' && s[1] == 'u' && s[2] == 'r' && s[3] == 's' && s[4] == 't';
    assert s[5] == 'a' && s[6] == 'b' && s[7] == 'l' && s[8] == 'e';
    LowerAlready(s);
  }

  lemma BestEffortIsLower()
    ensures ToLower("besteffort") == "besteffort"
    ensures "besteffort" != "burstable"
  {
    var s := "besteffort";
    assert s[0] == 'b' && s[1] == 'e' && s[2] == 's' && s[3] == 't' && s[4] == 'e';
    assert s[5] == 'f' && s[6] == 'f' && s[7] == 'o' && s[8] == 'r' && s[9] == 't';
    LowerAlready(s);
    assert "burstable"[1] == 'u';
  }

  lemma TierWordDashes(tier: QoSClass)
    requires tier == Burstable || tier == BestEffort
    ensures '-' !in TierWord(tier) && |TierWord(tier)| >= 9
    ensures TierWord(tier)[|TierWord(tier)| - 8] != 'k'
  {
  }

  /** The name read off a tier slice is the tier's word. */
  lemma TierSliceName(flat: string, tier: QoSClass)
    requires tier == Burstable || tier == BestEffort
    ensures TierName(SystemdBase(flat, tier) + ".slice", Systemd) == TierWord(tier)
  {
    hide TierWord, LastIndex;
    var word := TierWord(tier);
    var name := flat + "kubepods-" + word;
    TierWordDashes(tier);
    CutsSuffix(name, ".slice");
    AnchoredName(flat, word);
    assert name[|flat| + 9..] == word;
  }

  lemma TierSliceNamesTier(flat: string, tier: QoSClass)
    requires tier == Burstable || tier == BestEffort
    ensures TierOf(SystemdBase(flat, tier) + ".slice", Systemd) == Some(tier)
  {
    hide TierName, ToLower, SystemdBase;
    TierSliceName(flat, tier);
    BurstableIsLower();
    BestEffortIsLower();
  }

  /** What follows the last "kubepods-" in a pod slice's name. */
  function PodRest(tier: QoSClass, uid: string): string
    requires KubeletTier(tier)
  {
    (if tier == Guaranteed then "" else TierWord(tier) + "-") + "pod" + ReplaceChar(uid, '-', '_')
  }

  lemma PodNameRest(flat: string, tier: QoSClass, uid: string)
    requires KubeletTier(tier)
    ensures SystemdPodName(flat, tier, uid) == flat + "kubepods-" + PodRest(tier, uid)
  {
    var escaped := ReplaceChar(uid, '-', '_');
    if tier == Guaranteed {
      assert "kubepods" + "-pod" == "kubepods-" + "pod";
      assert flat + "kubepods" + "-pod" + escaped == flat + ("kubepods" + "-pod") + escaped;
      assert flat + "kubepods-" + ("pod" + escaped) == flat + ("kubepods-" + "pod") + escaped;
      assert "" + "pod" == "pod";
    } else {
      var word := TierWord(tier);
      assert "-" + "pod" == "-pod";
      assert word + "-" + "pod" == word + "-pod";
      assert flat + "kubepods-" + word + "-pod" + escaped == flat + "kubepods-" + (word + "-pod" + escaped);
    }
  }

  lemma PodRestDashes(tier: QoSClass, uid: string)
    requires KubeletTier(tier)
    ensures var rest := PodRest(tier, uid);
      forall j | 0 <= j < |rest| :: rest[j] == '-' ==> j >= 9 && rest[j - 8] != 'k'
  {
    hide TierWord;
    var rest, escaped := PodRest(tier, uid), ReplaceChar(uid, '-', '_');
    if tier == Guaranteed {
      assert rest == "pod" + escaped;
    } else {
      var word := TierWord(tier);
      TierWordDashes(tier);
      assert rest == word + "-pod" + escaped;
      forall j | 0 <= j < |rest|
        ensures rest[j] == '-' ==> j == |word|
      {
        assert rest[j] ==
          if j < |word| then word[j]
          else if j < |word| + 4 then "-pod"[j - |word|]
          else escaped[j - |word| - 4];
        assert j < |word| ==> rest[j] in word;
        assert j >= |word| + 4 ==> rest[j] in escaped;
      }
    }
  }

  lemma PodRestNoTier(tier: QoSClass, uid: string)
    requires KubeletTier(tier) && uid != ""
    ensures ToLower(PodRest(tier, uid)) != "burstable" && ToLower(PodRest(tier, uid)) != "besteffort"
  {
    var lower := ToLower(PodRest(tier, uid));
    if tier == Guaranteed {
      assert lower[0] == 'p';
    } else {
      assert |lower| >= 14;
    }
  }

  lemma PodSliceNoTier(flat: string, tier: QoSClass, uid: string)
    requires KubeletTier(tier) && uid != ""
    ensures TierOf(SystemdPodName(flat, tier, uid) + ".slice", Systemd) == None
  {
    var name, rest := SystemdPodName(flat, tier, uid), PodRest(tier, uid);
    PodNameRest(flat, tier, uid);
    CutsSuffix(name, ".slice");
    PodRestDashes(tier, uid);
    AnchoredName(flat, rest);
    assert name[|flat| + 9..] == rest;
    PodRestNoTier(tier, uid);
  }

  /** The tier a path reports: an ancestor's, when one is named after a tier. */
  function ReportedTier(ancestors: seq<string>, driver: Driver, tier: QoSClass): QoSClass {
    match FirstTier(ancestors, driver)
    case Some(other) => other
    case None => tier
  }

  lemma InTreeAt(segments: seq<string>, i: nat, flat: string, rest: string)
    requires i < |segments| && segments[i] == flat + "kubepods" + rest
    ensures InTree(segments)
  {
    hide LastIndex;
    var segment := segments[i];
    assert segment[|flat|..|flat| + 8] == "kubepods";
    ContainsAt(segment, "kubepods", |flat|);
  }

  lemma FirstTierOne(segment: string, driver: Driver)
    ensures FirstTier([segment], driver) == TierOf(segment, driver)
  {
    hide TierOf;
    assert FirstTier([segment][1..], driver) == None;
  }

  /** The tier named by the segments below the ancestors. */
  lemma SystemdFirstTier(
    flat: string, tier: QoSClass, uid: string, container: Option<(RuntimePrefix, string)>)
    requires KubeletTier(tier) && uid != ""
    ensures FirstTier(SystemdSegments([], flat, tier, uid, container), Systemd) ==
            if tier == Guaranteed then None else Some(tier)
  {
    hide TierOf, SystemdBase, SystemdPodName, FirstTier;
    var root, pod := flat + "kubepods" + ".slice", SystemdPodName(flat, tier, uid) + ".slice";
    var slice := if tier == Guaranteed then [] else [SystemdBase(flat, tier) + ".slice"];
    var last := match container case None => [] case Some((entry, id)) => [entry.prefix + id + ".scope"];
    assert SystemdSegments([], flat, tier, uid, container) == [root] + slice + [pod] + last;
    RootSliceNoTier(flat);
    PodSliceNoTier(flat, tier, uid);
    FirstTierOne(root, Systemd);
    FirstTierOne(pod, Systemd);
    FirstTierNone(Systemd);
    if tier != Guaranteed {
      TierSliceNamesTier(flat, tier);
      FirstTierOne(SystemdBase(flat, tier) + ".slice", Systemd);
    }
    if container.Some? {
      ScopeNoTier(container.value.0.prefix + container.value.1);
      FirstTierOne(container.value.0.prefix + container.value.1 + ".scope", Systemd);
    }
    FirstTierConcat([root], slice, Systemd);
    FirstTierConcat([root] + slice, [pod], Systemd);
    FirstTierConcat([root] + slice + [pod], last, Systemd);
  }

  lemma FirstTierNone(driver: Driver)
    ensures FirstTier([], driver) == None
  {
  }

  lemma SystemdQoS(
    ancestors: seq<string>, flat: string, tier: QoSClass, uid: string, container: Option<(RuntimePrefix, string)>)
    requires KubeletTier(tier) && uid != ""
    ensures var segments := SystemdSegments(ancestors, flat, tier, uid, container);
      InTree(segments) && QoSOf(segments, Systemd) == ReportedTier(ancestors, Systemd, tier)
  {
    hide FirstTier, SystemdBase, SystemdPodName, InTree;
    var segments := SystemdSegments(ancestors, flat, tier, uid, container);
    var below := SystemdSegments([], flat, tier, uid, container);
    assert segments == ancestors + below;
    assert segments[|ancestors|] == flat + "kubepods" + ".slice";
    InTreeAt(segments, |ancestors|, flat, ".slice");
    SystemdFirstTier(flat, tier, uid, container);
    FirstTierConcat(ancestors, below, Systemd);
  }

  lemma ScopeOfContainer(segments: seq<string>, uid: string, driver: Driver, id: string, runtime: Runtime)
    requires |segments| >= 2
    requires ParsePodSegment(segments[|segments| - 2]) == Some((uid, driver))
    requires ContainerIn(RUNTIME_PREFIXES, segments[|segments| - 1], driver) == Some((id, runtime))
    ensures ScopeOf(segments) == Some(Scope(uid, id, ContainerScope, QoSOf(segments, driver), driver, runtime, ""))
  {
  }

  lemma ScopeOfPod(segments: seq<string>, uid: string, driver: Driver)
    requires |segments| >= 2 && InTree(segments)
    requires ParsePodSegment(segments[|segments| - 1]) == Some((uid, driver))
    requires forall above | ParsePodSegment(segments[|segments| - 2]) == Some(above) ::
      ContainerIn(RUNTIME_PREFIXES, segments[|segments| - 1], above.1) == None
    ensures ScopeOf(segments) == Some(Scope(uid, "", PodScope, QoSOf(segments, driver), driver, UnknownRuntime, ""))
  {
  }

  /** The identity of the pod or container a systemd path was written for, with
      the tier the path reports. */
  function SystemdIdentity(
    ancestors: seq<string>, tier: QoSClass, uid: string, container: Option<(RuntimePrefix, string)>, path: string)
    : Scope
  {
    var qos := ReportedTier(ancestors, Systemd, tier);
    match container
    case Some((entry, id)) => Scope(uid, id, ContainerScope, qos, Systemd, entry.runtime, path)
    case None => Scope(uid, "", PodScope, qos, Systemd, UnknownRuntime, path)
  }

  /** The last two segments of a systemd path. */
  lemma SystemdEnds(
    ancestors: seq<string>, flat: string, tier: QoSClass, uid: string, container: Option<(RuntimePrefix, string)>)
    requires KubeletTier(tier)
    ensures var segments := SystemdSegments(ancestors, flat, tier, uid, container);
      var pod := SystemdPodName(flat, tier, uid) + ".slice";
      && |segments| >= 2
      && (match container
          case Some((entry, id)) =>
            segments[|segments| - 2] == pod && segments[|segments| - 1] == entry.prefix + id + ".scope"
          case None =>
            segments[|segments| - 2] == SystemdBase(flat, tier) + ".slice" && segments[|segments| - 1] == pod)
  {
    hide SystemdPodName;
  }

  lemma SystemdContainerScope(
    ancestors: seq<string>, flat: string, tier: QoSClass, uid: string, entry: RuntimePrefix, id: string)
    requires KubeletTier(tier) && uid != "" && entry in RUNTIME_PREFIXES && id != ""
    ensures ScopeOf(SystemdSegments(ancestors, flat, tier, uid, Some((entry, id)))) ==
            Some(SystemdIdentity(ancestors, tier, ReplaceChar(uid, '_', '-'), Some((entry, id)), ""))
  {
    hide ScopeOf, QoSOf, InTree, ParsePodSegment, ContainerIn;
    hide SystemdSegments, SystemdBase, ReplaceChar, RUNTIME_PREFIXES;
    var segments := SystemdSegments(ancestors, flat, tier, uid, Some((entry, id)));
    SystemdQoS(ancestors, flat, tier, uid, Some((entry, id)));
    Unescape(uid);
    SystemdPodSegment(SystemdBase(flat, tier), ReplaceChar(uid, '-', '_'));
    SystemdEnds(ancestors, flat, tier, uid, Some((entry, id)));
    SystemdContainerSegment(entry, id);
    ScopeOfContainer(segments, ReplaceChar(uid, '_', '-'), Systemd, id, entry.runtime);
  }

  lemma SystemdPodScope(ancestors: seq<string>, flat: string, tier: QoSClass, uid: string)
    requires KubeletTier(tier) && uid != ""
    ensures ScopeOf(SystemdSegments(ancestors, flat, tier, uid, None)) ==
            Some(SystemdIdentity(ancestors, tier, ReplaceChar(uid, '_', '-'), None, ""))
  {
    hide ScopeOf, QoSOf, InTree, ParsePodSegment, ContainerIn;
    hide SystemdSegments, SystemdBase, ReplaceChar, RUNTIME_PREFIXES;
    var segments := SystemdSegments(ancestors, flat, tier, uid, None);
    SystemdQoS(ancestors, flat, tier, uid, None);
    Unescape(uid);
    SystemdPodSegment(SystemdBase(flat, tier), ReplaceChar(uid, '-', '_'));
    SystemdEnds(ancestors, flat, tier, uid, None);
    SliceHoldsNoContainer(SystemdBase(flat, tier), SystemdPodName(flat, tier, uid));
    ScopeOfPod(segments, ReplaceChar(uid, '_', '-'), Systemd);
  }

  lemma SystemdSegmentsScope(
    ancestors: seq<string>, flat: string, tier: QoSClass, uid: string, container: Option<(RuntimePrefix, string)>)
    requires KubeletTier(tier) && uid != ""
    requires container.Some? ==> container.value.0 in RUNTIME_PREFIXES && container.value.1 != ""
    ensures ScopeOf(SystemdSegments(ancestors, flat, tier, uid, container)) ==
            Some(SystemdIdentity(ancestors, tier, ReplaceChar(uid, '_', '-'), container, ""))
  {
    hide *;
    match container
    case Some((entry, id)) => SystemdContainerScope(ancestors, flat, tier, uid, entry, id);
    case None => SystemdPodScope(ancestors, flat, tier, uid);
  }

  /** Whatever pod the slice above seems to name, a slice is not its container. */
  lemma SliceHoldsNoContainer(above: string, pod: string)
    ensures forall found | ParsePodSegment(above + ".slice") == Some(found) ::
      ContainerIn(RUNTIME_PREFIXES, pod + ".slice", found.1) == None
  {
    CutsSuffix(above, ".slice");
    DifferentSuffix(pod, ".slice", ".scope");
  }

  lemma NoSlash(a: string, b: string)
    requires '/' !in a && '/' !in b
    ensures '/' !in a + b
  {
  }

  lemma RuntimePrefixesWellFormed(entry: RuntimePrefix)
    requires entry in RUNTIME_PREFIXES
    ensures '/' !in entry.prefix
  {
    var i :| 0 <= i < |RUNTIME_PREFIXES| && RUNTIME_PREFIXES[i] == entry;
    assert i == 0 || i == 1 || i == 2 || i == 3;
  }

  lemma SystemdSegmentsWellFormed(
    ancestors: seq<string>, flat: string, tier: QoSClass, uid: string, container: Option<(RuntimePrefix, string)>)
    requires KubeletTier(tier)
    requires WellFormedSegments(ancestors) && '/' !in flat && WellFormedSegment(uid)
    requires container.Some? ==> container.value.0 in RUNTIME_PREFIXES && WellFormedSegment(container.value.1)
    ensures WellFormedSegments(SystemdSegments(ancestors, flat, tier, uid, container))
  {
    hide ReplaceChar, RUNTIME_PREFIXES;
    var base := SystemdBase(flat, tier);
    NoSlash(flat, "kubepods");
    NoSlash(flat + "kubepods", ".slice");
    if tier != Guaranteed {
      NoSlash(flat, "kubepods-");
      NoSlash(flat + "kubepods-", TierWord(tier));
    }
    NoSlash(base, ".slice");
    NoSlash(base, "-pod");
    NoSlash(base + "-pod", ReplaceChar(uid, '-', '_'));
    NoSlash(SystemdPodName(flat, tier, uid), ".slice");
    if container.Some? {
      RuntimePrefixesWellFormed(container.value.0);
      NoSlash(container.value.0.prefix, container.value.1);
      NoSlash(container.value.0.prefix + container.value.1, ".scope");
    }
  }

  /** Every path the kubelet writes under systemd parses, whatever the names
      involved: the driver, level, container and runtime always come back; the UID
      comes back with underscores read as dashes; the tier is the first one named. */
  lemma SystemdParses(
    ancestors: seq<string>, flat: string, tier: QoSClass, uid: string, container: Option<(RuntimePrefix, string)>)
    requires KubeletTier(tier)
    requires WellFormedSegments(ancestors) && '/' !in flat && WellFormedSegment(uid)
    requires container.Some? ==> container.value.0 in RUNTIME_PREFIXES && WellFormedSegment(container.value.1)
    ensures var path := PathOf(SystemdSegments(ancestors, flat, tier, uid, container));
      Parse(path) == Some(SystemdIdentity(ancestors, tier, ReplaceChar(uid, '_', '-'), container, path))
  {
    SystemdSegmentsWellFormed(ancestors, flat, tier, uid, container);
    SegmentsOfPath(SystemdSegments(ancestors, flat, tier, uid, container));
    SystemdSegmentsScope(ancestors, flat, tier, uid, container);
  }

  /** Parsing undoes printing under systemd exactly when the UID has no
      underscore and no ancestor is named after a different tier. */
  lemma SystemdRoundTrip(
    ancestors: seq<string>, flat: string, tier: QoSClass, uid: string, container: Option<(RuntimePrefix, string)>)
    requires KubeletTier(tier)
    requires WellFormedSegments(ancestors) && '/' !in flat && WellFormedSegment(uid)
    requires container.Some? ==> container.value.0 in RUNTIME_PREFIXES && WellFormedSegment(container.value.1)
    ensures var path := PathOf(SystemdSegments(ancestors, flat, tier, uid, container));
      Parse(path) == Some(match container
                          case Some((entry, id)) => Scope(uid, id, ContainerScope, tier, Systemd, entry.runtime, path)
                          case None => Scope(uid, "", PodScope, tier, Systemd, UnknownRuntime, path))
      <==> '_' !in uid && FirstTier(ancestors, Systemd) in {None, Some(tier)}
  {
    hide Parse, SystemdSegments, PathOf, FirstTier, ReplaceChar;
    SystemdParses(ancestors, flat, tier, uid, container);
    Unescape(uid);
  }

  // ---- cgroupfs ----

  /** The names under which the cgroupfs driver's path can be read back. */
  predicate CgroupfsReadable(uid: string, container: Option<string>) {
    && !HasSuffix(uid, ".slice")
    && (container.Some? ==> !Contains(container.value, ".") && !HasPrefix(container.value, "pod"))
  }

  lemma CgroupfsPodSegment(uid: string)
    requires uid != ""
    ensures HasSuffix("pod" + uid, ".slice") <==> HasSuffix(uid, ".slice")
    ensures !HasSuffix(uid, ".slice") ==> ParsePodSegment("pod" + uid) == Some((uid, Cgroupfs))
    ensures HasSuffix(uid, ".slice") ==>
              ParsePodSegment("pod" + uid) == None || ParsePodSegment("pod" + uid).value.1 == Systemd
  {
    var segment := "pod" + uid;
    assert segment[3..] == uid;
    if |uid| >= 6 {
      assert segment[|segment| - 6..] == uid[|uid| - 6..];
    } else if |segment| >= 6 {
      assert segment[|segment| - 6] in "pod";
      assert ".slice"[0] == '.';
    }
  }

  /** The tier a cgroupfs path reports: the first of an ancestor's, the pod's own
      segment, and a container ID that happens to be a tier's name. */
  function CgroupfsReported(ancestors: seq<string>, tier: QoSClass, container: Option<string>): QoSClass {
    if FirstTier(ancestors, Cgroupfs).Some? then FirstTier(ancestors, Cgroupfs).value
    else if tier != Guaranteed || container == None then tier
    else match TierOf(container.value, Cgroupfs)
         case Some(named) => named
         case None => Guaranteed
  }

  lemma CgroupfsQoS(ancestors: seq<string>, tier: QoSClass, uid: string, container: Option<string>)
    requires KubeletTier(tier)
    ensures var segments := CgroupfsSegments(ancestors, tier, uid, container);
      InTree(segments) && QoSOf(segments, Cgroupfs) == CgroupfsReported(ancestors, tier, container)
  {
    hide TierOf, Contains;
    var segments := CgroupfsSegments(ancestors, tier, uid, container);
    var root, pod := ["kubepods"], ["pod" + uid];
    var slice := if tier == Guaranteed then [] else [TierWord(tier)];
    var last := match container case None => [] case Some(id) => [id];
    assert segments == ancestors + root + slice + pod + last;
    FirstTierConcat(ancestors, root, Cgroupfs);
    FirstTierConcat(ancestors + root, slice, Cgroupfs);
    FirstTierConcat(ancestors + root + slice, pod, Cgroupfs);
    FirstTierConcat(ancestors + root + slice + pod, last, Cgroupfs);
    PlainNamesTier(uid);
    assert segments[|ancestors|] == "kubepods";
    assert "kubepods"[0..8] == "kubepods";
    ContainsAt("kubepods", "kubepods", 0);
  }

  lemma PlainNamesTier(uid: string)
    ensures TierOf("kubepods", Cgroupfs) == None && TierOf("pod" + uid, Cgroupfs) == None
    ensures TierOf("burstable", Cgroupfs) == Some(Burstable) && TierOf("besteffort", Cgroupfs) == Some(BestEffort)
  {
    assert ToLower("kubepods")[0] == 'k' && ToLower("pod" + uid)[0] == 'p';
    assert ToLower("burstable") == "burstable" && ToLower("besteffort") == "besteffort";
    assert "burstable"[0] == 'b' && "besteffort"[0] == 'b' && |"burstable"| != |"besteffort"|;
  }

  /** The last two segments of a cgroupfs path. */
  lemma CgroupfsEnds(ancestors: seq<string>, tier: QoSClass, uid: string, container: Option<string>)
    requires KubeletTier(tier)
    ensures var segments := CgroupfsSegments(ancestors, tier, uid, container);
      && |segments| >= 2
      && (match container
          case Some(id) => segments[|segments| - 2] == "pod" + uid && segments[|segments| - 1] == id
          case None => segments[|segments| - 2] in {"kubepods", "burstable", "besteffort"}
                       && segments[|segments| - 1] == "pod" + uid)
  {
  }

  lemma AboveIsNoPod(segment: string)
    requires segment in {"kubepods", "burstable", "besteffort"}
    ensures ParsePodSegment(segment) == None
  {
    var k, b, e := "kubepods", "burstable", "besteffort";
    assert k[7] == 's' && b[7] == 'l' && e[9] == 't' && "pod"[0] == 'p' && k[0] == 'k' && b[0] == 'b' && e[0] == 'b';
    assert ".slice"[5] == 'e' && ".slice"[4] == 'c';
  }

  function CgroupfsIdentity(uid: string, container: Option<string>, qos: QoSClass, path: string): Scope {
    match container
    case Some(id) => Scope(uid, id, ContainerScope, qos, Cgroupfs, UnknownRuntime, path)
    case None => Scope(uid, "", PodScope, qos, Cgroupfs, UnknownRuntime, path)
  }

  lemma CgroupfsReadableScope(ancestors: seq<string>, tier: QoSClass, uid: string, container: Option<string>)
    requires KubeletTier(tier) && uid != "" && container != Some("")
    requires CgroupfsReadable(uid, container)
    ensures ScopeOf(CgroupfsSegments(ancestors, tier, uid, container)) ==
            Some(CgroupfsIdentity(uid, container, CgroupfsReported(ancestors, tier, container), ""))
  {
    hide InTree, QoSOf, ScopeOf, ParsePodSegment, CgroupfsReported, CgroupfsSegments;
    var segments := CgroupfsSegments(ancestors, tier, uid, container);
    CgroupfsPodSegment(uid);
    CgroupfsQoS(ancestors, tier, uid, container);
    CgroupfsEnds(ancestors, tier, uid, container);
    match container
    case Some(id) =>
      ScopeOfContainer(segments, uid, Cgroupfs, id, UnknownRuntime);
    case None =>
      AboveIsNoPod(segments[|segments| - 2]);
      ScopeOfPod(segments, uid, Cgroupfs);
  }

  lemma CgroupfsUnreadableScope(
    ancestors: seq<string>, tier: QoSClass, uid: string, container: Option<string>, path: string)
    requires KubeletTier(tier) && uid != "" && container != Some("")
    requires !CgroupfsReadable(uid, container)
    ensures var scope := ScopeOf(CgroupfsSegments(ancestors, tier, uid, container));
      scope.Some? ==> scope.value.(cgroupPath := path) != CgroupfsIdentity(uid, container, tier, path)
  {
    hide InTree, QoSOf, ParsePodSegment, CgroupfsSegments, FindRuntime;
    var segments := CgroupfsSegments(ancestors, tier, uid, container);
    CgroupfsPodSegment(uid);
    CgroupfsEnds(ancestors, tier, uid, container);
    if container == None {
      AboveIsNoPod(segments[|segments| - 2]);
    }
  }

  /** Parsing undoes printing under cgroupfs exactly when the UID does not end in
      ".slice", the container ID does not look structural, and no ancestor, nor the
      container ID of a Guaranteed pod, is named after a different tier. */
  lemma CgroupfsRoundTrip(ancestors: seq<string>, tier: QoSClass, uid: string, container: Option<string>)
    requires KubeletTier(tier)
    requires WellFormedSegments(ancestors) && WellFormedSegment(uid)
    requires container.Some? ==> WellFormedSegment(container.value)
    ensures var path := PathOf(CgroupfsSegments(ancestors, tier, uid, container));
      Parse(path) == Some(CgroupfsIdentity(uid, container, tier, path))
      <==> && CgroupfsReadable(uid, container)
           && FirstTier(ancestors, Cgroupfs) in {None, Some(tier)}
           && (tier == Guaranteed && container.Some? ==> TierOf(container.value, Cgroupfs) == None)
  {
    hide PathOf, Segments, ScopeOf, FirstTier, TierOf, CgroupfsReadable, TierWord;
    var segments := CgroupfsSegments(ancestors, tier, uid, container);
    NoSlash("pod", uid);
    CgroupfsWellFormed(ancestors, tier, uid, container);
    SegmentsOfPath(segments);
    NotGuaranteed(container, ancestors);
    hide CgroupfsSegments;
    if CgroupfsReadable(uid, container) {
      CgroupfsReadableScope(ancestors, tier, uid, container);
    } else {
      CgroupfsUnreadableScope(ancestors, tier, uid, container, PathOf(segments));
    }
  }

  lemma CgroupfsWellFormed(ancestors: seq<string>, tier: QoSClass, uid: string, container: Option<string>)
    requires KubeletTier(tier)
    requires WellFormedSegments(ancestors) && WellFormedSegment(uid)
    requires container.Some? ==> WellFormedSegment(container.value)
    ensures WellFormedSegments(CgroupfsSegments(ancestors, tier, uid, container))
  {
    NoSlash("pod", uid);
  }

  lemma NotGuaranteed(container: Option<string>, ancestors: seq<string>)
    ensures FirstTier(ancestors, Cgroupfs) != Some(Guaranteed)
    ensures container.Some? ==> TierOf(container.value, Cgroupfs) != Some(Guaranteed)
  {
    NamedTiers(ancestors, Cgroupfs);
  }

  /** Only the pod level insists on the kubelet's tree: any two last segments that
      read as a pod and a container are taken for one, wherever they are. */
  lemma ContainerNeedsNoTree(ancestors: seq<string>, uid: string, id: string)
    requires WellFormedSegments(ancestors) && WellFormedSegment(uid) && WellFormedSegment(id)
    requires CgroupfsReadable(uid, Some(id))
    ensures var path := PathOf(ancestors + ["pod" + uid, id]);
      && Parse(path).Some?
      && Parse(path).value.kind == ContainerScope
      && Parse(path).value.podUID == uid && Parse(path).value.containerID == id
  {
    hide PathOf, Segments, ScopeOf, CgroupfsReadable, QoSOf, ParsePodSegment;
    var segments := ancestors + ["pod" + uid, id];
    NoSlash("pod", uid);
    SegmentsOfPath(segments);
    CgroupfsPodSegment(uid);
    ReadableParts(uid, id);
    ScopeOfContainer(segments, uid, Cgroupfs, id, UnknownRuntime);
  }

  lemma ReadableParts(uid: string, id: string)
    requires CgroupfsReadable(uid, Some(id)) && id != ""
    ensures !HasSuffix(uid, ".slice") && ContainerIn(RUNTIME_PREFIXES, id, Cgroupfs) == Some((id, UnknownRuntime))
  {
    hide Contains;
  }
}
