/** Selecting presets for a pod, checking that they can be applied, and applying them. */
module PodMutation {
  import opened Results
  import opened Pooling
  import opened PodTypes
  import opened KeyedMerge
  import opened PodMerge

  const MIRROR_KEY := "kubernetes.io/config.mirror"
  const OPT_OUT_KEY := "podpreset.admission.kubernetes.io/exclude"
  const PODPRESET_NAME := "cs-podpreset.operator.ibm.com"
  const DNS_CLUSTER_FIRST := "ClusterFirst"
  const SINGLE_REQUEST_REOPEN := DNSOption("single-request-reopen", None)

  datatype Match = Matches | NoMatch | BadSelector

  /** What a label selector says about a set of labels; conversion failure included. */
  type SelectorSemantics = (LabelSelector, Labels) -> Match

  datatype MutateError = ListFailed | SelectorFailed

  // ---------- selection ----------

  predicate IllFormed(pp: PodPreset, labels: Labels, namespace: string, selects: SelectorSemantics)
  {
    pp.namespace == namespace && selects(pp.spec.selector, labels).BadSelector?
  }

  predicate Selects(pp: PodPreset, labels: Labels, namespace: string, selects: SelectorSemantics)
  {
    pp.namespace == namespace && selects(pp.spec.selector, labels).Matches?
  }

  /** The intended selection: the matching presets of the namespace, in list order. */
  function Intended(list: seq<PodPreset>, labels: Labels, namespace: string, selects: SelectorSemantics): seq<PodPreset>
  {
    if list == [] then []
    else
      var rest := Intended(list[..|list| - 1], labels, namespace, selects);
      var pp := list[|list| - 1];
      if Selects(pp, labels, namespace, selects) then rest + [pp] else rest
  }

  lemma {:induction false} IntendedMembers(list: seq<PodPreset>, labels: Labels, namespace: string,
                                           selects: SelectorSemantics)
    ensures forall pp :: pp in Intended(list, labels, namespace, selects)
                         <==> && pp in list && pp.namespace == namespace
                              && selects(pp.spec.selector, labels) == Matches
  {
    if list != [] {
      IntendedMembers(list[..|list| - 1], labels, namespace, selects);
      assert list == list[..|list| - 1] + [list[|list| - 1]];
    }
  }

  ghost function MatchingPositions(list: seq<PodPreset>, labels: Labels, namespace: string, selects: SelectorSemantics)
    : set<int>
  {
    set i | 0 <= i < |list| && list[i].namespace == namespace && selects(list[i].spec.selector, labels) == Matches
  }

  lemma MatchingPositionsStep(list: seq<PodPreset>, n: nat, labels: Labels, namespace: string,
                              selects: SelectorSemantics)
    requires |list| == n + 1
    ensures MatchingPositions(list, labels, namespace, selects)
            == MatchingPositions(list[..n], labels, namespace, selects)
               + if Selects(list[n], labels, namespace, selects) then {n} else {}
  {
    forall i | 0 <= i < n
      ensures list[..n][i] == list[i]
    {
    }
  }

  /** There are as many as there are matching positions in the list. */
  lemma {:induction false} IntendedCount(list: seq<PodPreset>, labels: Labels, namespace: string,
                                         selects: SelectorSemantics)
    ensures |Intended(list, labels, namespace, selects)| == |MatchingPositions(list, labels, namespace, selects)|
  {
    if list != [] {
      var n := |list| - 1;
      IntendedCount(list[..n], labels, namespace, selects);
      MatchingPositionsStep(list, n, labels, namespace, selects);
      assert n !in MatchingPositions(list[..n], labels, namespace, selects);
    }
  }

  lemma IntendedStep(list: seq<PodPreset>, i: nat, labels: Labels, namespace: string, selects: SelectorSemantics)
    requires i < |list|
    ensures |Intended(list[..i + 1], labels, namespace, selects)|
            == |Intended(list[..i], labels, namespace, selects)|
               + if Selects(list[i], labels, namespace, selects) then 1 else 0
  {
    assert list[..i + 1][..i] == list[..i];
  }

  lemma SomeIntended(list: seq<PodPreset>, labels: Labels, namespace: string, selects: SelectorSemantics)
    ensures |Intended(list, labels, namespace, selects)| > 0
            <==> exists pp :: pp in list && pp.namespace == namespace && selects(pp.spec.selector, labels) == Matches
  {
    IntendedMembers(list, labels, namespace, selects);
    var intended := Intended(list, labels, namespace, selects);
    if intended != [] {
      assert intended[0] in intended;
    }
    if pp :| pp in list && Selects(pp, labels, namespace, selects) {
      assert pp in intended;
    }
  }

  /** The selection as written: as many pointers as intended, all to one variable that
      is left holding the last listed preset. */
  function Selected(list: seq<PodPreset>, labels: Labels, namespace: string, selects: SelectorSemantics): seq<PodPreset>
  {
    if list == [] then []
    else Copies(list[|list| - 1], |Intended(list, labels, namespace, selects)|)
  }

  function Copies<T>(x: T, n: nat): (s: seq<T>)
    ensures |s| == n && forall i :: 0 <= i < n ==> s[i] == x
  {
    if n == 0 then [] else Copies(x, n - 1) + [x]
  }

  method FilterPodPresets(list: seq<PodPreset>, labels: Labels, namespace: string, selects: SelectorSemantics)
    returns (r: Result<seq<PodPresetVar>, MutateError>)
    ensures r.Err? <==> exists pp :: pp in list && pp.namespace == namespace && selects(pp.spec.selector, labels) == BadSelector
    ensures r.Err? ==> r.error == SelectorFailed
    ensures r.Ok? ==> |r.value| == |set i | 0 <= i < |list| && list[i].namespace == namespace
                                           && selects(list[i].spec.selector, labels) == Matches|
    ensures r.Ok? ==> (|r.value| > 0 <==> exists pp :: pp in list && pp.namespace == namespace
                                                       && selects(pp.spec.selector, labels) == Matches)
    ensures r.Ok? ==> forall i :: 0 <= i < |r.value| ==> list != [] && r.value[i].value == list[|list| - 1]
    ensures r.Ok? ==> forall i, j :: 0 <= i < j < |r.value| ==> r.value[i] == r.value[j]
    ensures r.Ok? ==> PointTo(r.value, Selected(list, labels, namespace, selects))
  {
    var matchingPPs: seq<PodPresetVar> := [];
    var pp := new PodPresetVar.Declare();
    for i := 0 to |list|
      invariant |matchingPPs| == |Intended(list[..i], labels, namespace, selects)|
      invariant forall k :: 0 <= k < |matchingPPs| ==> matchingPPs[k] == pp
      invariant i > 0 ==> pp.value == list[i - 1]
      invariant forall k :: 0 <= k < i ==> !IllFormed(list[k], labels, namespace, selects)
    {
      IntendedStep(list, i, labels, namespace, selects);
      pp.value := list[i];
      if pp.value.namespace != namespace {
        continue;
      }
      var selector := selects(pp.value.spec.selector, labels);
      if selector.BadSelector? {
        assert IllFormed(list[i], labels, namespace, selects);
        return Err(SelectorFailed);
      }
      if !selector.Matches? {
        continue;
      }
      matchingPPs := matchingPPs + [pp];
    }
    TakeAll(list);
    IntendedCount(list, labels, namespace, selects);
    SomeIntended(list, labels, namespace, selects);
    r := Ok(matchingPPs);
  }

  // ---------- the safety check ----------

  ghost predicate SafeOnContainer(c: Container, presets: seq<PodPreset>)
  {
    && MergeResult(EnvName, c.env, Pool(SpecEnv, presets)).Ok?
    && MountResult(c.volumeMounts, Pool(SpecMounts, presets)).Ok?
  }

  ghost predicate AllSafe(cs: seq<Container>, presets: seq<PodPreset>)
  {
    cs == [] || (AllSafe(cs[..|cs| - 1], presets) && SafeOnContainer(cs[|cs| - 1], presets))
  }

  lemma AllSafeStep(cs: seq<Container>, presets: seq<PodPreset>, i: nat)
    requires i < |cs|
    ensures AllSafe(cs[..i + 1], presets) <==> AllSafe(cs[..i], presets) && SafeOnContainer(cs[i], presets)
  {
    assert cs[..i + 1][..i] == cs[..i];
  }

  lemma {:induction false} AllSafeAt(cs: seq<Container>, presets: seq<PodPreset>)
    ensures AllSafe(cs, presets) <==> forall c :: c in cs ==> SafeOnContainer(c, presets)
  {
    if cs != [] {
      var rest, last := cs[..|cs| - 1], cs[|cs| - 1];
      assert cs == rest + [last];
      AllSafeAt(rest, presets);
    }
  }

  ghost predicate Safe(p: PodValue, presets: seq<PodPreset>)
  {
    && MergeResult(VolumeName, p.volumes, Pool(SpecVolumes, presets)).Ok?
    && AllSafe(p.containers, presets)
  }

  method SafeToApplyPodPresetsOnContainer(ctr: Container, podPresets: seq<PodPresetVar>, ghost presets: seq<PodPreset>)
    returns (safe: bool)
    requires PointTo(podPresets, presets)
    ensures safe <==> SafeOnContainer(ctr, presets)
  {
    var errs := 0;
    var env := MergeEnv(ctr.env, podPresets, presets);
    if env.Err? {
      errs := errs + 1;
    }
    var mounts := MergeVolumeMounts(ctr.volumeMounts, podPresets, presets);
    if mounts.Err? {
      errs := errs + 1;
    }
    safe := errs == 0;
  }

  method SafeToApplyPodPresetsOnPod(pod: Pod, podPresets: seq<PodPresetVar>, ghost presets: seq<PodPreset>)
    returns (safe: bool)
    requires PointTo(podPresets, presets)
    ensures safe <==> Safe(pod.Value(), presets)
  {
    var errs := 0;
    var volumes := MergeVolumes(pod.volumes, podPresets, presets);
    if volumes.Err? {
      errs := errs + 1;
    }
    ghost var cs := pod.containers[..];
    for i := 0 to pod.containers.Length
      invariant errs >= 0
      invariant errs == 0 <==> volumes.Ok? && AllSafe(cs[..i], presets)
    {
      AllSafeStep(cs, presets, i);
      var ok := SafeToApplyPodPresetsOnContainer(pod.containers[i], podPresets, presets);
      if !ok {
        errs := errs + 1;
      }
    }
    TakeAll(cs);
    safe := errs == 0;
  }

  // ---------- applying ----------

  function ContainerAfter(c: Container, presets: seq<PodPreset>): Container
  {
    c.(env := Kept(MergeResult(EnvName, c.env, Pool(SpecEnv, presets))),
       volumeMounts := Kept(MountResult(c.volumeMounts, Pool(SpecMounts, presets))),
       envFrom := c.envFrom + Pool(SpecEnvFrom, presets))
  }

  function ContainersAfter(cs: seq<Container>, presets: seq<PodPreset>): (r: seq<Container>)
    ensures |r| == |cs|
  {
    if cs == [] then []
    else ContainersAfter(cs[..|cs| - 1], presets) + [ContainerAfter(cs[|cs| - 1], presets)]
  }

  /** The containers when the loop has rewritten the first `i` of them. */
  ghost function ContainersUpTo(cs: seq<Container>, presets: seq<PodPreset>, i: nat): seq<Container>
    requires i <= |cs|
  {
    ContainersAfter(cs[..i], presets) + cs[i..]
  }

  lemma RewriteStep(cs: seq<Container>, presets: seq<PodPreset>, i: nat)
    requires i < |cs|
    ensures ContainersUpTo(cs, presets, i)[i] == cs[i]
    ensures ContainersUpTo(cs, presets, i)[i := ContainerAfter(cs[i], presets)] == ContainersUpTo(cs, presets, i + 1)
  {
    assert cs[..i + 1][..i] == cs[..i];
  }

  lemma {:induction false} ContainersAfterAt(cs: seq<Container>, presets: seq<PodPreset>, i: nat)
    requires i < |cs|
    ensures ContainersAfter(cs, presets)[i] == ContainerAfter(cs[i], presets)
  {
    if i < |cs| - 1 {
      ContainersAfterAt(cs[..|cs| - 1], presets, i);
    }
  }

  function DNSAfter(policy: string, config: Option<DNSConfig>): Option<DNSConfig>
  {
    if policy != DNS_CLUSTER_FIRST then config
    else
      var c := if config.None? then DNSConfig([], "") else config.value;
      Some(if SINGLE_REQUEST_REOPEN in c.options then c else c.(options := c.options + [SINGLE_REQUEST_REOPEN]))
  }

  function AnnotationKey(name: string): string
  {
    PODPRESET_NAME + "/podpreset-" + name
  }

  function Annotated(annotations: map<string, string>, presets: seq<PodPreset>): map<string, string>
  {
    if presets == [] then annotations
    else
      var pp := presets[|presets| - 1];
      Annotated(annotations, presets[..|presets| - 1])[AnnotationKey(pp.name) := pp.resourceVersion]
  }

  /** The pod after applying presets, whether or not they were checked first. */
  function Applied(p: PodValue, presets: seq<PodPreset>): PodValue
  {
    if presets == [] then p
    else
      p.(volumes := Kept(MergeResult(VolumeName, p.volumes, Pool(SpecVolumes, presets))),
         dnsConfig := DNSAfter(p.dnsPolicy, p.dnsConfig),
         containers := ContainersAfter(p.containers, presets),
         annotations := Annotated(p.annotations, presets))
  }

  /** `discarded` counts the merge errors that are thrown away. */
  method ApplyPodPresetsOnContainer(ctr: ContainerVar, podPresets: seq<PodPresetVar>, ghost presets: seq<PodPreset>)
    returns (ghost discarded: nat)
    requires PointTo(podPresets, presets)
    modifies ctr
    ensures ctr.value == ContainerAfter(old(ctr.value), presets)
    ensures discarded == 0 <==> SafeOnContainer(old(ctr.value), presets)
  {
    var envVars := MergeEnv(ctr.value.env, podPresets, presets);
    ctr.value := ctr.value.(env := Kept(envVars));

    var volumeMounts := MergeVolumeMounts(ctr.value.volumeMounts, podPresets, presets);
    ctr.value := ctr.value.(volumeMounts := Kept(volumeMounts));

    var envFrom := MergeEnvFrom(ctr.value.envFrom, podPresets, presets);
    ctr.value := ctr.value.(envFrom := envFrom);
    discarded := (if envVars.Err? then 1 else 0) + (if volumeMounts.Err? then 1 else 0);
  }

  method ApplyDNS(pod: Pod)
    modifies pod`dnsConfig, pod.dnsConfig
    ensures pod.DNS() == DNSAfter(pod.dnsPolicy, old(pod.DNS()))
    ensures pod.dnsPolicy != "ClusterFirst" ==> pod.DNS() == old(pod.DNS())
    ensures pod.dnsPolicy == "ClusterFirst"
            ==> var before := if old(pod.DNS()).None? then DNSConfig([], "") else old(pod.DNS()).value;
                pod.DNS() == Some(if DNSOption("single-request-reopen", None) in before.options then before
                                  else DNSConfig(before.options + [DNSOption("single-request-reopen", None)], before.rest))
    ensures pod.dnsConfig != old(pod.dnsConfig) ==> fresh(pod.dnsConfig)
  {
    if pod.dnsPolicy == DNS_CLUSTER_FIRST {
      if pod.dnsConfig == null {
        pod.dnsConfig := new PodDNSConfig();
      }
      var exist := false;
      for i := 0 to |pod.dnsConfig.options|
        invariant exist <==> SINGLE_REQUEST_REOPEN in pod.dnsConfig.options[..i]
      {
        if pod.dnsConfig.options[i] == SINGLE_REQUEST_REOPEN {
          exist := true;
        }
      }
      if !exist {
        pod.dnsConfig.options := pod.dnsConfig.options + [SINGLE_REQUEST_REOPEN];
      }
    }
  }

  /** One round of the loop over the containers: the element is copied into the loop
      variable, changed through its address, and copied back. */
  method ApplyOnElement(pod: Pod, i: nat, ctr: ContainerVar, podPresets: seq<PodPresetVar>,
                        ghost presets: seq<PodPreset>)
    returns (ghost discarded: nat)
    requires PointTo(podPresets, presets)
    requires i < pod.containers.Length
    modifies ctr, pod.containers
    ensures pod.containers[..] == old(pod.containers[..])[i := ContainerAfter(old(pod.containers[i]), presets)]
    ensures discarded == 0 <==> SafeOnContainer(old(pod.containers[i]), presets)
  {
    ctr.value := pod.containers[i];
    discarded := ApplyPodPresetsOnContainer(ctr, podPresets, presets);
    pod.containers[i] := ctr.value;
  }

  method ApplyOnContainers(pod: Pod, podPresets: seq<PodPresetVar>, ghost presets: seq<PodPreset>)
    returns (ghost discarded: nat)
    requires PointTo(podPresets, presets)
    modifies pod.containers
    ensures pod.containers[..] == ContainersAfter(old(pod.containers[..]), presets)
    ensures discarded == 0 <==> AllSafe(old(pod.containers[..]), presets)
  {
    ghost var cs := pod.containers[..];
    discarded := 0;
    var ctr := new ContainerVar.Declare();
    for i := 0 to pod.containers.Length
      invariant pod.containers[..] == ContainersUpTo(cs, presets, i)
      invariant discarded == 0 <==> AllSafe(cs[..i], presets)
    {
      AllSafeStep(cs, presets, i);
      RewriteStep(cs, presets, i);
      assert pod.containers[i] == pod.containers[..][i];
      ghost var d := ApplyOnElement(pod, i, ctr, podPresets, presets);
      discarded := discarded + d;
    }
    TakeAll(cs);
  }

  method Annotate(pod: Pod, podPresets: seq<PodPresetVar>, ghost presets: seq<PodPreset>)
    requires PointTo(podPresets, presets)
    modifies pod`annotations
    ensures pod.annotations == Annotated(old(pod.annotations), presets)
  {
    for i := 0 to |podPresets|
      invariant pod.annotations == Annotated(old(pod.annotations), presets[..i])
    {
      var pp := podPresets[i];
      assert presets[..i + 1][..i] == presets[..i];
      pod.annotations := pod.annotations[AnnotationKey(pp.value.name) := pp.value.resourceVersion];
    }
    assert presets[..|presets|] == presets;
  }

  /** The volumes and the DNS options. */
  method InjectIntoSpec(pod: Pod, podPresets: seq<PodPresetVar>, ghost presets: seq<PodPreset>)
    returns (ghost discarded: nat)
    requires PointTo(podPresets, presets)
    modifies pod`volumes, pod`dnsConfig, pod.dnsConfig
    ensures pod.volumes == Kept(MergeResult(VolumeName, old(pod.volumes), Pool(SpecVolumes, presets)))
    ensures pod.DNS() == DNSAfter(pod.dnsPolicy, old(pod.DNS()))
    ensures discarded == 0 <==> MergeResult(VolumeName, old(pod.volumes), Pool(SpecVolumes, presets)).Ok?
  {
    var volumes := MergeVolumes(pod.volumes, podPresets, presets);
    pod.volumes := Kept(volumes);
    ApplyDNS(pod);
    discarded := if volumes.Err? then 1 else 0;
  }

  /** The four steps of an application, field by field. */
  method Inject(pod: Pod, podPresets: seq<PodPresetVar>, ghost presets: seq<PodPreset>) returns (ghost discarded: nat)
    requires PointTo(podPresets, presets)
    modifies pod`volumes, pod`dnsConfig, pod`annotations, pod.containers, pod.dnsConfig
    ensures pod.volumes == Kept(MergeResult(VolumeName, old(pod.volumes), Pool(SpecVolumes, presets)))
    ensures pod.DNS() == DNSAfter(pod.dnsPolicy, old(pod.DNS()))
    ensures pod.containers[..] == ContainersAfter(old(pod.containers[..]), presets)
    ensures pod.annotations == Annotated(old(pod.annotations), presets)
    ensures discarded == 0
            <==> && MergeResult(VolumeName, old(pod.volumes), Pool(SpecVolumes, presets)).Ok?
                 && AllSafe(old(pod.containers[..]), presets)
  {
    ghost var cs := pod.containers[..];
    ghost var d := InjectIntoSpec(pod, podPresets, presets);
    assert pod.containers[..] == cs;
    ghost var e := ApplyOnContainers(pod, podPresets, presets);
    ghost var after := pod.containers[..];
    Annotate(pod, podPresets, presets);
    assert pod.containers[..] == after;
    discarded := d + e;
  }

  /** Merge errors are discarded; none occurs exactly when the check would have passed
      on the pod as it was, although the pod is rewritten between the merges. */
  method ApplyPodPresetsOnPod(pod: Pod, podPresets: seq<PodPresetVar>, ghost presets: seq<PodPreset>)
    returns (ghost discarded: nat)
    requires PointTo(podPresets, presets)
    modifies pod`volumes, pod`dnsConfig, pod`annotations, pod.containers, pod.dnsConfig
    ensures pod.Value() == Applied(old(pod.Value()), presets)
    ensures discarded == 0 <==> podPresets == [] || Safe(old(pod.Value()), presets)
  {
    discarded := 0;
    if |podPresets| == 0 {
      return;
    }
    discarded := Inject(pod, podPresets, presets);
  }

  // ---------- one admission ----------

  predicate OptedOut(annotations: map<string, string>)
  {
    OPT_OUT_KEY in annotations && annotations[OPT_OUT_KEY] == "true"
  }

  predicate Exempt(p: PodValue)
  {
    MIRROR_KEY in p.annotations || OptedOut(p.annotations)
  }

  ghost predicate SelectionFails(p: PodValue, list: seq<PodPreset>, namespace: string, selects: SelectorSemantics)
  {
    exists pp :: pp in list && IllFormed(pp, p.labels, namespace, selects)
  }

  /** What one admission does: the error it answers with, and the pod it leaves. A
      conflict is not an error; the pod is then left alone. */
  ghost function Mutated(p: PodValue, listed: Option<seq<PodPreset>>, namespace: string, selects: SelectorSemantics)
    : (Option<MutateError>, PodValue)
  {
    if Exempt(p) then (None, p)
    else if listed.None? then (Some(ListFailed), p)
    else if SelectionFails(p, listed.value, namespace, selects) then (Some(SelectorFailed), p)
    else
      var presets := Selected(listed.value, p.labels, namespace, selects);
      (None, if Safe(p, presets) then Applied(p, presets) else p)
  }

  method MutatePod(pod: Pod, listed: Option<seq<PodPreset>>, namespace: string, selects: SelectorSemantics)
    returns (err: Option<MutateError>)
    modifies pod`volumes, pod`dnsConfig, pod`annotations, pod.containers, pod.dnsConfig
    ensures (err, pod.Value()) == Mutated(old(pod.Value()), listed, namespace, selects)
  {
    if MIRROR_KEY in pod.annotations {
      return None;
    }
    if OptedOut(pod.annotations) {
      return None;
    }
    if listed.None? {
      return Some(ListFailed);
    }
    var matchingPPs := FilterPodPresets(listed.value, pod.labels, namespace, selects);
    if matchingPPs.Err? {
      return Some(matchingPPs.error);
    }
    if |matchingPPs.value| == 0 {
      return None;
    }
    ghost var presets := Selected(listed.value, pod.labels, namespace, selects);
    var safe := SafeToApplyPodPresetsOnPod(pod, matchingPPs.value, presets);
    if !safe {
      return None;
    }
    ghost var discarded := ApplyPodPresetsOnPod(pod, matchingPPs.value, presets);
    assert discarded == 0;
    return None;
  }
}
