/** What parsing promises of every string, not only of the kubelet's own paths. */
module CgroupLaws {
  import opened Common
  import opened GoStrings
  import opened CgroupPath

  /** Two paths carry the same identity, apart from the path itself. */
  predicate SameIdentity(p: string, q: string) {
    match (Parse(p), Parse(q))
    case (Some(s), Some(t)) => s.(cgroupPath := "") == t.(cgroupPath := "")
    case (None, None) => true
    case _ => false
  }

  /** Doubled, leading and trailing slashes change nothing but the recorded path. */
  lemma SlashesIrrelevant(a: string, b: string)
    ensures SameIdentity(a + "/" + ("/" + b), a + "/" + b)
    ensures SameIdentity("/" + a, a)
    ensures SameIdentity(a + "/", a)
    ensures InTree(Segments("/" + a)) <==> InTree(Segments(a))
  {
    hide Segments, SameIdentity, InTree;
    LeadingSlash(b);
    LeadingSlash(a);
    TrailingSlash(a);
    SegmentsConcat(a, "/" + b);
    SegmentsConcat(a, b);
    SameSegments(a + "/" + ("/" + b), a + "/" + b);
    SameSegments("/" + a, a);
    SameSegments(a + "/", a);
  }

  lemma SameSegments(p: string, q: string)
    requires Segments(p) == Segments(q)
    ensures SameIdentity(p, q)
  {
    hide ScopeOf, Segments;
  }

  lemma LeadingSlash(a: string)
    ensures Segments("/" + a) == Segments(a)
  {
    SegmentsConcat("", a);
    EmptyPath();
    hide Segments;
    assert "" + "/" + a == "/" + a;
    assert [] + Segments(a) == Segments(a);
  }

  lemma TrailingSlash(a: string)
    ensures Segments(a + "/") == Segments(a)
  {
    SegmentsConcat(a, "");
    EmptyPath();
    hide Segments;
    assert a + "/" + "" == a + "/";
    assert Segments(a) + [] == Segments(a);
  }

  lemma EmptyPath()
    ensures Segments("") == []
  {
  }

  lemma PodSegmentShape(segment: string)
    ensures var pod := ParsePodSegment(segment);
      pod.Some? ==> pod.value.0 != "" && (pod.value.1 == Systemd ==> '_' !in pod.value.0)
  {
  }

  lemma ContainerShape(segment: string, driver: Driver)
    ensures var container := ContainerIn(RUNTIME_PREFIXES, segment, driver);
      container.Some? ==> container.value.0 != "" && (driver == Cgroupfs ==> container.value.1 == UnknownRuntime)
  {
    hide FindRuntime;
  }

  /** Any accepted path names a pod; exactly a container scope names a container;
      a pod scope lies in the kubelet's tree; a systemd UID has no underscore; and
      the path is carried along. */
  lemma AcceptedShape(path: string)
    requires Parse(path).Some?
    ensures var scope := Parse(path).value;
      && scope.podUID != ""
      && scope.cgroupPath == path
      && (scope.kind == ContainerScope <==> scope.containerID != "")
      && (scope.kind == PodScope ==>
            InTree(Segments(path)) && scope.runtime == UnknownRuntime && scope.qos != UnknownQoS)
      && (scope.driver == Systemd ==> '_' !in scope.podUID)
      && (scope.qos == Guaranteed ==> InTree(Segments(path)))
      && (scope.qos == UnknownQoS ==> !InTree(Segments(path)))
  {
    hide ParsePodSegment, ContainerIn, Segments, InTree;
    var segments := Segments(path);
    var n := |segments|;
    if n >= 2 {
      PodSegmentShape(segments[n - 2]);
      ContainerShape(segments[n - 1], Systemd);
      ContainerShape(segments[n - 1], Cgroupfs);
    }
    if n >= 1 {
      PodSegmentShape(segments[n - 1]);
    }
    NamedTiers(segments, Systemd);
    NamedTiers(segments, Cgroupfs);
    EmptyNotInTree();
  }

  lemma EmptyNotInTree()
    ensures !InTree([])
  {
  }

  /** A pod segment is never read as the container of the segment above it. */
  lemma PodSegmentIsNoContainer(pod: string, above: string)
    requires ParsePodSegment(pod).Some?
    requires ParsePodSegment(above).Some?
    ensures ContainerIn(RUNTIME_PREFIXES, pod, ParsePodSegment(above).value.1) == None
  {
    var driver := ParsePodSegment(above).value.1;
    if HasSuffix(pod, ".slice") {
      assert OccursAt(pod, ".", |pod| - 6) by {
        assert pod[|pod| - 6] == pod[|pod| - 6..][0] == '.';
      }
      ContainsAt(pod, ".", |pod| - 6);
    } else if driver == Systemd && HasSuffix(pod, ".scope") {
      NoRuntimeStartsWithPod(CutSuffix(pod, ".scope").value);
    }
  }

  lemma NoRuntimeStartsWithPod(body: string)
    requires body == "" || body[0] == 'p'
    ensures FindRuntime(RUNTIME_PREFIXES, body) == None
  {
    forall entry | entry in RUNTIME_PREFIXES
      ensures !HasPrefix(body, entry.prefix)
    {
      var i :| 0 <= i < |RUNTIME_PREFIXES| && RUNTIME_PREFIXES[i] == entry;
      assert i == 0 || i == 1 || i == 2 || i == 3;
      assert entry.prefix[0] == 'c' || entry.prefix[0] == 'd';
    }
  }

  /** The two levels of the tree agree: the directory above an accepted container
      is, inside the kubelet's tree, the slice of the same pod under the same
      driver. A kill charged to either is attributed to one pod. */
  lemma ContainerAndPodAgree(segments: seq<string>)
    requires ContainerScopeOf(segments).Some?
    requires InTree(segments[..|segments| - 1])
    ensures var pod := ScopeOf(segments[..|segments| - 1]);
      && pod.Some? && pod.value.kind == PodScope
      && pod.value.podUID == ContainerScopeOf(segments).value.podUID
      && pod.value.driver == ContainerScopeOf(segments).value.driver
  {
    hide InTree, QoSOf, ParsePodSegment, ContainerIn;
    var above := segments[..|segments| - 1];
    if |above| >= 2 && ParsePodSegment(above[|above| - 2]).Some? {
      PodSegmentIsNoContainer(above[|above| - 1], above[|above| - 2]);
    }
  }
}
