/** The pod webhook spelled out: what it selects, when it refuses, and what every field of
    the pod becomes, in terms of the fields of the pod and the presets alone. */
module PodLaws {
  import opened Results
  import opened Pooling
  import opened PodTypes
  import opened KeyedMerge
  import opened PodMerge
  import opened PodMutation
  import opened PodTheorems
  import opened PodReadmission
  import opened MergeLaws

  // ---------- selection ----------

  /** The intended selection is what stands at the matching positions, in order. */
  lemma {:induction false} IntendedInOrder(list: seq<PodPreset>, labels: Labels, namespace: string, selects: SelectorSemantics,
                                           n: nat)
    returns (at: seq<nat>)
    requires n <= |list|
    ensures Picked(Intended(list[..n], labels, namespace, selects), list, at, n)
    ensures forall i :: 0 <= i < n ==>
              (i in at <==> list[i].namespace == namespace && selects(list[i].spec.selector, labels) == Matches)
  {
    at := [];
    if n > 0 {
      var before := IntendedInOrder(list, labels, namespace, selects, n - 1);
      var rest := Intended(list[..n - 1], labels, namespace, selects);
      assert list[..n][..n - 1] == list[..n - 1];
      at := PickedNext(rest, list, before, n - 1, Selects(list[n - 1], labels, namespace, selects));
    }
  }

  // ---------- lists merged by a key ----------

  ghost predicate Offers<T>(offered: PodPreset -> seq<T>, presets: seq<PodPreset>, v: T)
  {
    exists pp :: pp in presets && v in offered(pp)
  }

  /** The injected items agree with the list: each with the list's last entry of its key,
      and any two of one key with each other. */
  ghost predicate Agree<T(!new)>(key: T -> string, own: seq<T>, offered: PodPreset -> seq<T>, presets: seq<PodPreset>)
  {
    && (forall v, i: nat :: Offers(offered, presets, v) && IsLastOf(key, own, i, key(v)) ==> own[i] == v)
    && (forall v, w :: Offers(offered, presets, v) && Offers(offered, presets, w) && key(v) == key(w) ==> v == w)
  }

  lemma {:induction false} PoolMember<T>(offered: PodPreset -> seq<T>, presets: seq<PodPreset>, v: T)
    ensures v in Pool(offered, presets) <==> Offers(offered, presets, v)
  {
    if presets != [] {
      var n := |presets| - 1;
      PoolMember(offered, presets[..n], v);
      assert presets == presets[..n] + [presets[n]];
      if v in offered(presets[n]) {
        assert presets[n] in presets;
      }
      if pp :| pp in presets[..n] && v in offered(pp) {
        assert pp in presets;
      }
    }
  }

  lemma AgreesWithOwn<T>(key: T -> string, own: seq<T>, v: T)
    ensures (key(v) in Index(key, own) ==> Index(key, own)[key(v)] == v)
            <==> forall i: nat :: IsLastOf(key, own, i, key(v)) ==> own[i] == v
  {
    if key(v) in Index(key, own) {
      var i := LastOfKey(key, own, key(v));
    }
    forall i: nat | IsLastOf(key, own, i, key(v))
      ensures key(v) in Index(key, own) && Index(key, own)[key(v)] == own[i]
    {
      IndexIsLast(key, own, i);
    }
  }

  lemma AgreeIff<T(!new)>(key: T -> string, own: seq<T>, offered: PodPreset -> seq<T>, presets: seq<PodPreset>)
    ensures Compatible(key, own, Pool(offered, presets)) <==> Agree(key, own, offered, presets)
  {
    var items := Pool(offered, presets);
    forall v
      ensures v in items <==> Offers(offered, presets, v)
    {
      PoolMember(offered, presets, v);
    }
    forall v
      ensures (key(v) in Index(key, own) ==> Index(key, own)[key(v)] == v)
              <==> forall i: nat :: IsLastOf(key, own, i, key(v)) ==> own[i] == v
    {
      AgreesWithOwn(key, own, v);
    }
  }

  lemma SameAgreement<T(!new)>(key: T -> string, name: T -> string, own: seq<T>,
                               offered: PodPreset -> seq<T>, listed: PodPreset -> seq<T>, presets: seq<PodPreset>)
    requires (forall v :: key(v) == name(v)) && (forall pp :: offered(pp) == listed(pp))
    ensures Agree(key, own, offered, presets) <==> Agree(name, own, listed, presets)
  {
    forall v
      ensures Offers(offered, presets, v) <==> Offers(listed, presets, v)
    {
    }
    forall i: nat, k
      ensures IsLastOf(key, own, i, k) <==> IsLastOf(name, own, i, k)
    {
    }
  }

  /** Two ways of writing a key, or of naming the items, that agree give the same merge. */
  lemma {:induction false} SamePool<P(!new), T>(f: P -> seq<T>, g: P -> seq<T>, list: seq<P>)
    requires forall p :: f(p) == g(p)
    ensures Pool(f, list) == Pool(g, list)
  {
    if list != [] {
      SamePool(f, g, list[..|list| - 1]);
    }
  }

  lemma {:induction false} SameOccurrences<T(!new)>(key: T -> string, name: T -> string, orig: seq<T>,
                                             items: seq<T>, n: nat)
    requires n <= |items| && forall v :: key(v) == name(v)
    ensures FirstOccurrences(key, orig, items, n) == FirstOccurrences(name, orig, items, n)
  {
    if n > 0 {
      SameOccurrences(key, name, orig, items, n - 1);
    }
  }

  // ---------- the safety check ----------

  lemma VolumesAgree(volumes: seq<Volume>, presets: seq<PodPreset>)
    ensures Compatible(VolumeName, volumes, Pool(SpecVolumes, presets))
            <==> Agree((v: Volume) => v.name, volumes, (pp: PodPreset) => pp.spec.volumes, presets)
  {
    AgreeIff(VolumeName, volumes, SpecVolumes, presets);
    SameAgreement(VolumeName, (v: Volume) => v.name, volumes, SpecVolumes, (pp: PodPreset) => pp.spec.volumes, presets);
  }

  lemma EnvAgrees(env: seq<EnvVar>, presets: seq<PodPreset>)
    ensures Compatible(EnvName, env, Pool(SpecEnv, presets))
            <==> Agree((v: EnvVar) => v.name, env, (pp: PodPreset) => pp.spec.env, presets)
  {
    AgreeIff(EnvName, env, SpecEnv, presets);
    SameAgreement(EnvName, (v: EnvVar) => v.name, env, SpecEnv, (pp: PodPreset) => pp.spec.env, presets);
  }

  lemma MountsAgree(mounts: seq<VolumeMount>, presets: seq<PodPreset>)
    ensures MountsCompatible(mounts, Pool(SpecMounts, presets))
            <==> && Agree((v: VolumeMount) => v.name, mounts, (pp: PodPreset) => pp.spec.volumeMounts, presets)
                 && Agree((v: VolumeMount) => v.mountPath, mounts, (pp: PodPreset) => pp.spec.volumeMounts, presets)
  {
    AgreeIff(MountName, mounts, SpecMounts, presets);
    AgreeIff(MountPath, mounts, SpecMounts, presets);
    SameAgreement(MountName, (v: VolumeMount) => v.name, mounts,
                  SpecMounts, (pp: PodPreset) => pp.spec.volumeMounts, presets);
    SameAgreement(MountPath, (v: VolumeMount) => v.mountPath, mounts,
                  SpecMounts, (pp: PodPreset) => pp.spec.volumeMounts, presets);
  }

  /** When presets are safe for a pod. */
  lemma SafetySpelledOut(p: PodValue, presets: seq<PodPreset>)
    ensures Safe(p, presets)
            <==> && Agree((v: Volume) => v.name, p.volumes, (pp: PodPreset) => pp.spec.volumes, presets)
                 && (forall c :: c in p.containers ==>
                       && Agree((v: EnvVar) => v.name, c.env, (pp: PodPreset) => pp.spec.env, presets)
                       && Agree((v: VolumeMount) => v.name, c.volumeMounts, (pp: PodPreset) => pp.spec.volumeMounts, presets)
                       && Agree((v: VolumeMount) => v.mountPath, c.volumeMounts, (pp: PodPreset) => pp.spec.volumeMounts, presets))
  {
    SafeMeaning(p, presets);
    VolumesAgree(p.volumes, presets);
    forall c | c in p.containers
      ensures ContainerCompatible(c, presets)
              <==> && Agree((v: EnvVar) => v.name, c.env, (pp: PodPreset) => pp.spec.env, presets)
                   && Agree((v: VolumeMount) => v.name, c.volumeMounts, (pp: PodPreset) => pp.spec.volumeMounts, presets)
                   && Agree((v: VolumeMount) => v.mountPath, c.volumeMounts, (pp: PodPreset) => pp.spec.volumeMounts, presets)
    {
      EnvAgrees(c.env, presets);
      MountsAgree(c.volumeMounts, presets);
    }
  }

  // ---------- what an application does to every field ----------

  /** A list with the first occurrence of each new key added, among items on offer. */
  ghost predicate Extended<T>(key: T -> string, own: seq<T>, offered: seq<T>, r: seq<T>)
  {
    r == own + FirstOccurrences(key, own, offered, |offered|)
  }

  lemma SameExtension<T(!new)>(key: T -> string, name: T -> string, own: seq<T>,
                               offered: PodPreset -> seq<T>, listed: PodPreset -> seq<T>, presets: seq<PodPreset>, r: seq<T>)
    requires (forall v :: key(v) == name(v)) && (forall pp :: offered(pp) == listed(pp))
    requires Added(key, own, Pool(offered, presets), r)
    ensures Extended(name, own, Pool(listed, presets), r)
  {
    SamePool(offered, listed, presets);
    SameOccurrences(key, name, own, Pool(offered, presets), |Pool(offered, presets)|);
  }

  lemma ContainerSpelledOut(c: Container, presets: seq<PodPreset>)
    requires SafeOnContainer(c, presets)
    ensures var d := ContainerAfter(c, presets);
            && Extended((v: EnvVar) => v.name, c.env, Pool((pp: PodPreset) => pp.spec.env, presets), d.env)
            && Extended((v: VolumeMount) => v.name, c.volumeMounts, Pool((pp: PodPreset) => pp.spec.volumeMounts, presets),
                        d.volumeMounts)
            && d.envFrom == c.envFrom + Pool((pp: PodPreset) => pp.spec.envFrom, presets)
            && d.rest == c.rest
  {
    ContainerAfterAdds(c, presets);
    var d := ContainerAfter(c, presets);
    SameExtension(EnvName, (v: EnvVar) => v.name, c.env, SpecEnv, (pp: PodPreset) => pp.spec.env, presets, d.env);
    SameExtension(MountName, (v: VolumeMount) => v.name, c.volumeMounts,
                  SpecMounts, (pp: PodPreset) => pp.spec.volumeMounts, presets, d.volumeMounts);
    SamePool(SpecEnvFrom, (pp: PodPreset) => pp.spec.envFrom, presets);
  }

  /** Volumes, containers and everything that is not injected into. */
  lemma ApplicationSpelledOut(p: PodValue, presets: seq<PodPreset>)
    requires presets != [] && Safe(p, presets)
    ensures var q := Applied(p, presets);
            && q.labels == p.labels && q.dnsPolicy == p.dnsPolicy && q.rest == p.rest
            && Extended((v: Volume) => v.name, p.volumes, Pool((pp: PodPreset) => pp.spec.volumes, presets), q.volumes)
            && |q.containers| == |p.containers|
            && forall i :: 0 <= i < |p.containers| ==>
                 var c, d := p.containers[i], q.containers[i];
                 && Extended((v: EnvVar) => v.name, c.env, Pool((pp: PodPreset) => pp.spec.env, presets), d.env)
                 && Extended((v: VolumeMount) => v.name, c.volumeMounts,
                             Pool((pp: PodPreset) => pp.spec.volumeMounts, presets), d.volumeMounts)
                 && d.envFrom == c.envFrom + Pool((pp: PodPreset) => pp.spec.envFrom, presets)
                 && d.rest == c.rest
  {
    var q := Applied(p, presets);
    MergedAdds(VolumeName, p.volumes, Pool(SpecVolumes, presets));
    SameExtension(VolumeName, (v: Volume) => v.name, p.volumes,
                  SpecVolumes, (pp: PodPreset) => pp.spec.volumes, presets, q.volumes);
    AllSafeAt(p.containers, presets);
    forall i | 0 <= i < |p.containers|
      ensures q.containers[i] == ContainerAfter(p.containers[i], presets) && SafeOnContainer(p.containers[i], presets)
    {
      ContainersAfterAt(p.containers, presets, i);
      assert p.containers[i] in p.containers;
    }
    forall i | 0 <= i < |p.containers|
      ensures var c, d := p.containers[i], q.containers[i];
              && Extended((v: EnvVar) => v.name, c.env, Pool((pp: PodPreset) => pp.spec.env, presets), d.env)
              && Extended((v: VolumeMount) => v.name, c.volumeMounts,
                          Pool((pp: PodPreset) => pp.spec.volumeMounts, presets), d.volumeMounts)
              && d.envFrom == c.envFrom + Pool((pp: PodPreset) => pp.spec.envFrom, presets)
              && d.rest == c.rest
    {
      ContainerSpelledOut(p.containers[i], presets);
    }
  }

  /** The DNS configuration: untouched unless the pod is under the cluster's own DNS, and
      then given the one option, unless it has it. */
  lemma DNSSpelledOut(p: PodValue, presets: seq<PodPreset>)
    ensures p.dnsPolicy != "ClusterFirst" || presets == [] ==> Applied(p, presets).dnsConfig == p.dnsConfig
    ensures p.dnsPolicy == "ClusterFirst" && presets != []
            ==> var before := if p.dnsConfig.None? then DNSConfig([], "") else p.dnsConfig.value;
                Applied(p, presets).dnsConfig
                == Some(if DNSOption("single-request-reopen", None) in before.options then before
                        else DNSConfig(before.options + [DNSOption("single-request-reopen", None)], before.rest))
  {
  }

  lemma {:induction false} OtherAnnotations(m: map<string, string>, presets: seq<PodPreset>, k: string)
    requires forall pp :: pp in presets ==> k != "cs-podpreset.operator.ibm.com/podpreset-" + pp.name
    ensures (k in Annotated(m, presets) <==> k in m) && (k in m ==> Annotated(m, presets)[k] == m[k])
  {
    if presets != [] {
      var n := |presets| - 1;
      OtherAnnotations(m, presets[..n], k);
      KeySpelledOut(presets[n].name);
      assert presets[n] in presets;
    }
  }

  lemma KeySpelledOut(name: string)
    ensures AnnotationKey(name) == "cs-podpreset.operator.ibm.com/podpreset-" + name
  {
    assert PODPRESET_NAME + "/podpreset-" == "cs-podpreset.operator.ibm.com/podpreset-";
  }

  /** The annotations: the version of each preset under its own key, the last of a name
      winning, and nothing else. */
  lemma AnnotationsSpelledOut(p: PodValue, presets: seq<PodPreset>)
    ensures forall i :: 0 <= i < |presets| && (forall j :: i < j < |presets| ==> presets[j].name != presets[i].name) ==>
              var k := "cs-podpreset.operator.ibm.com/podpreset-" + presets[i].name;
              k in Applied(p, presets).annotations && Applied(p, presets).annotations[k] == presets[i].resourceVersion
    ensures forall k :: (forall pp :: pp in presets ==> k != "cs-podpreset.operator.ibm.com/podpreset-" + pp.name) ==>
              && (k in Applied(p, presets).annotations <==> k in p.annotations)
              && (k in p.annotations ==> Applied(p, presets).annotations[k] == p.annotations[k])
  {
    forall i | 0 <= i < |presets| && (forall j :: i < j < |presets| ==> presets[j].name != presets[i].name)
      ensures var k := "cs-podpreset.operator.ibm.com/podpreset-" + presets[i].name;
              k in Applied(p, presets).annotations && Applied(p, presets).annotations[k] == presets[i].resourceVersion
    {
      PresetIsRecorded(p.annotations, presets, i);
      KeySpelledOut(presets[i].name);
    }
    forall k | forall pp :: pp in presets ==> k != "cs-podpreset.operator.ibm.com/podpreset-" + pp.name
      ensures (k in Applied(p, presets).annotations <==> k in p.annotations)
      ensures k in p.annotations ==> Applied(p, presets).annotations[k] == p.annotations[k]
    {
      OtherAnnotations(p.annotations, presets, k);
    }
  }

  // ---------- admissions ----------

  /** A mirror pod, or one that has opted out, is let through unchanged. */
  lemma ExemptAdmission(p: PodValue, listed: Option<seq<PodPreset>>, namespace: string, selects: SelectorSemantics)
    requires || "kubernetes.io/config.mirror" in p.annotations
             || ("podpreset.admission.kubernetes.io/exclude" in p.annotations
                 && p.annotations["podpreset.admission.kubernetes.io/exclude"] == "true")
    ensures Mutated(p, listed, namespace, selects) == (None, p)
  {
  }

  /** However often it comes by, and whatever is listed by then. */
  lemma {:induction false} ExemptRun(p: PodValue, admissions: seq<Admission>)
    requires || "kubernetes.io/config.mirror" in p.annotations
             || ("podpreset.admission.kubernetes.io/exclude" in p.annotations
                 && p.annotations["podpreset.admission.kubernetes.io/exclude"] == "true")
    ensures Run(p, admissions) == p
  {
    if admissions != [] {
      var a := admissions[|admissions| - 1];
      ExemptRun(p, admissions[..|admissions| - 1]);
      ExemptAdmission(p, a.listed, a.namespace, a.selects);
    }
  }

  /** Any other pod: the error of a failed listing or of an ill-formed selector in the
      namespace; no change if nothing in the namespace matches; and otherwise the presets
      the code selects, one for each match, applied if they are safe. */
  lemma AdmissionSpelledOut(p: PodValue, listed: Option<seq<PodPreset>>, namespace: string, selects: SelectorSemantics,
                            selected: seq<PodPreset>)
    requires "kubernetes.io/config.mirror" !in p.annotations
    requires "podpreset.admission.kubernetes.io/exclude" in p.annotations
             ==> p.annotations["podpreset.admission.kubernetes.io/exclude"] != "true"
    requires listed.Some? && listed.value != []
             ==> && |selected| == |set i | 0 <= i < |listed.value| && listed.value[i].namespace == namespace
                                          && selects(listed.value[i].spec.selector, p.labels) == Matches|
                 && forall i :: 0 <= i < |selected| ==> selected[i] == listed.value[|listed.value| - 1]
    ensures listed.None? ==> Mutated(p, listed, namespace, selects) == (Some(ListFailed), p)
    ensures listed.Some? ==>
              var bad := exists pp :: pp in listed.value && pp.namespace == namespace
                                      && selects(pp.spec.selector, p.labels) == BadSelector;
              var some := exists pp :: pp in listed.value && pp.namespace == namespace
                                       && selects(pp.spec.selector, p.labels) == Matches;
              Mutated(p, listed, namespace, selects)
              == if bad then (Some(SelectorFailed), p)
                 else if some && Safe(p, selected) then (None, Applied(p, selected))
                 else (None, p)
  {
    if listed.Some? {
      var list := listed.value;
      IntendedCount(list, p.labels, namespace, selects);
      SomeIntended(list, p.labels, namespace, selects);
      if list != [] {
        assert Selected(list, p.labels, namespace, selects) == selected;
      }
      NothingIsSafe(p);
    }
  }

  /** A pod is changed only if some preset of its namespace matches it. */
  lemma ChangedOnlyIfMatched(p: PodValue, listed: Option<seq<PodPreset>>, namespace: string, selects: SelectorSemantics)
    requires Mutated(p, listed, namespace, selects).1 != p
    ensures listed.Some?
    ensures exists pp :: pp in listed.value && pp.namespace == namespace && selects(pp.spec.selector, p.labels) == Matches
  {
    SomeIntended(listed.value, p.labels, namespace, selects);
  }

  /** A pod that is not under the cluster's own DNS keeps its DNS configuration over every
      run. */
  lemma RunKeepsOtherDNS(p: PodValue, admissions: seq<Admission>)
    requires p.dnsPolicy != "ClusterFirst"
    ensures Run(p, admissions).dnsConfig == p.dnsConfig
  {
    var taken := RunIsOneApplication(p, admissions);
    DNSSpelledOut(p, taken);
  }

  /** When a pod takes its presets, in terms of the last listed one. */
  lemma TakesSpelledOut(p: PodValue, list: seq<PodPreset>, namespace: string, selects: SelectorSemantics)
    ensures Takes(p, Some(list), namespace, selects)
            <==> && "kubernetes.io/config.mirror" !in p.annotations
                 && ("podpreset.admission.kubernetes.io/exclude" in p.annotations
                     ==> p.annotations["podpreset.admission.kubernetes.io/exclude"] != "true")
                 && (forall pp :: pp in list && pp.namespace == namespace ==> selects(pp.spec.selector, p.labels) != BadSelector)
                 && (exists pp :: pp in list && pp.namespace == namespace && selects(pp.spec.selector, p.labels) == Matches)
                 && Safe(p, [list[|list| - 1]])
  {
    SomeIntended(list, p.labels, namespace, selects);
    var k := |Intended(list, p.labels, namespace, selects)|;
    if k >= 1 {
      CopiesCollapse(p, list[|list| - 1], k);
    }
  }
}
