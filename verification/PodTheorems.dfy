/** What holds of admissions: of one, of any number under the same presets, and of any
    run under changing presets. */
module PodTheorems {
  import opened Results
  import opened Pooling
  import opened PodTypes
  import opened KeyedMerge
  import opened PodMerge
  import opened PodMutation

  // ---------- what the safety check means ----------

  ghost predicate ContainerCompatible(c: Container, presets: seq<PodPreset>)
  {
    && Compatible(EnvName, c.env, Pool(SpecEnv, presets))
    && MountsCompatible(c.volumeMounts, Pool(SpecMounts, presets))
  }

  lemma SafeContainerMeaning(c: Container, presets: seq<PodPreset>)
    ensures SafeOnContainer(c, presets) <==> ContainerCompatible(c, presets)
  {
    ConflictFree(EnvName, c.env, Pool(SpecEnv, presets));
    MountConflictFree(c.volumeMounts, Pool(SpecMounts, presets));
  }

  /** The check passes exactly when every injected item agrees with the pod's last entry
      of its key and with every other injected item of its key. */
  lemma SafeMeaning(p: PodValue, presets: seq<PodPreset>)
    ensures Safe(p, presets)
            <==> && Compatible(VolumeName, p.volumes, Pool(SpecVolumes, presets))
                 && forall c :: c in p.containers ==> ContainerCompatible(c, presets)
  {
    ConflictFree(VolumeName, p.volumes, Pool(SpecVolumes, presets));
    AllSafeAt(p.containers, presets);
    forall c | c in p.containers { SafeContainerMeaning(c, presets); }
  }

  // ---------- check, then apply ----------

  ghost predicate ContainerExtends(c: Container, d: Container)
  {
    c.env <= d.env && c.envFrom <= d.envFrom && c.volumeMounts <= d.volumeMounts && c.rest == d.rest
  }

  ghost predicate ContainersExtend(cs: seq<Container>, ds: seq<Container>)
  {
    |cs| == |ds| && forall i :: 0 <= i < |cs| ==> ContainerExtends(cs[i], ds[i])
  }

  ghost predicate DNSExtends(c: Option<DNSConfig>, d: Option<DNSConfig>)
  {
    && (c.Some? ==> d.Some? && c.value.options <= d.value.options && c.value.rest == d.value.rest)
    && (c.None? && d.Some? ==> d.value.rest == "")
  }

  predicate Reserved(k: string)
  {
    AnnotationKey("") <= k
  }

  ghost predicate AnnotationsExtend(m: map<string, string>, m': map<string, string>)
  {
    && (forall k :: k in m ==> k in m')
    && (forall k :: k in m' && !Reserved(k) ==> k in m && m[k] == m'[k])
  }

  /** Every list of `p` is a prefix of its list in `q`; labels, DNS policy and all else
      are the same; annotations differ under the reserved prefix only. */
  ghost predicate Extends(p: PodValue, q: PodValue)
  {
    && q.labels == p.labels && q.dnsPolicy == p.dnsPolicy && q.rest == p.rest
    && p.volumes <= q.volumes
    && DNSExtends(p.dnsConfig, q.dnsConfig)
    && ContainersExtend(p.containers, q.containers)
    && AnnotationsExtend(p.annotations, q.annotations)
  }

  lemma {:induction false} AnnotatedExtends(m: map<string, string>, presets: seq<PodPreset>)
    ensures AnnotationsExtend(m, Annotated(m, presets))
  {
    if presets != [] {
      AnnotatedExtends(m, presets[..|presets| - 1]);
      var name := presets[|presets| - 1].name;
      assert Reserved(AnnotationKey(name));
    }
  }

  /** Each preset leaves its version under its own key; the last of a name wins. */
  lemma {:induction false} PresetIsRecorded(m: map<string, string>, presets: seq<PodPreset>, i: nat)
    requires i < |presets|
    requires forall j :: i < j < |presets| ==> presets[j].name != presets[i].name
    ensures var k := AnnotationKey(presets[i].name);
            k in Annotated(m, presets) && Annotated(m, presets)[k] == presets[i].resourceVersion
  {
    var n := |presets| - 1;
    if i < n {
      PresetIsRecorded(m, presets[..n], i);
      KeysApart(presets[i].name, presets[n].name);
    }
  }

  lemma KeysApart(a: string, b: string)
    requires a != b
    ensures AnnotationKey(a) != AnnotationKey(b)
  {
    assert AnnotationKey(a)[|AnnotationKey("")|..] == a;
    assert AnnotationKey(b)[|AnnotationKey("")|..] == b;
  }

  lemma {:induction false} ContainersAfterExtend(cs: seq<Container>, presets: seq<PodPreset>)
    requires AllSafe(cs, presets)
    ensures ContainersExtend(cs, ContainersAfter(cs, presets))
  {
    if cs != [] {
      ContainersAfterExtend(cs[..|cs| - 1], presets);
      assert ContainerExtends(cs[|cs| - 1], ContainerAfter(cs[|cs| - 1], presets));
    }
  }

  /** A list with exactly its fresh items added: the first occurrence of each key that
      the list lacks, in the order offered. */
  ghost predicate Added<T>(key: T -> string, orig: seq<T>, items: seq<T>, r: seq<T>)
  {
    r == orig + FirstOccurrences(key, orig, items, |items|)
  }

  lemma MergedAdds<T>(key: T -> string, orig: seq<T>, items: seq<T>)
    ensures Added(key, orig, items, Merged(key, orig, items))
  {
    MergedIsFirstOccurrences(key, orig, items, |items|);
    TakeAll(items);
  }

  ghost predicate ContainerAdded(c: Container, d: Container, presets: seq<PodPreset>)
  {
    && Added(EnvName, c.env, Pool(SpecEnv, presets), d.env)
    && Added(MountName, c.volumeMounts, Pool(SpecMounts, presets), d.volumeMounts)
    && d.envFrom == c.envFrom + Pool(SpecEnvFrom, presets)
    && d.rest == c.rest
  }

  lemma ContainerAfterAdds(c: Container, presets: seq<PodPreset>)
    requires SafeOnContainer(c, presets)
    ensures ContainerAdded(c, ContainerAfter(c, presets), presets)
  {
    MergedAdds(EnvName, c.env, Pool(SpecEnv, presets));
    MergedAdds(MountName, c.volumeMounts, Pool(SpecMounts, presets));
  }

  lemma ContainersAfterAdd(cs: seq<Container>, presets: seq<PodPreset>)
    requires AllSafe(cs, presets)
    ensures forall i :: 0 <= i < |cs| ==> ContainerAdded(cs[i], ContainersAfter(cs, presets)[i], presets)
  {
    AllSafeAt(cs, presets);
    forall i | 0 <= i < |cs|
      ensures ContainerAdded(cs[i], ContainersAfter(cs, presets)[i], presets)
    {
      ContainersAfterAt(cs, presets, i);
      assert SafeOnContainer(cs[i], presets);
      ContainerAfterAdds(cs[i], presets);
    }
  }

  /** A checked application adds to every list exactly the first occurrence of each fresh
      key; and it gives a pod under the cluster's own DNS the option this webhook is
      there for. */
  lemma CheckedApplication(p: PodValue, presets: seq<PodPreset>)
    requires presets != [] && Safe(p, presets)
    ensures var q := Applied(p, presets);
            && Added(VolumeName, p.volumes, Pool(SpecVolumes, presets), q.volumes)
            && (forall i :: 0 <= i < |p.containers| ==> ContainerAdded(p.containers[i], q.containers[i], presets))
            && (p.dnsPolicy == DNS_CLUSTER_FIRST
                ==> q.dnsConfig.Some? && SINGLE_REQUEST_REOPEN in q.dnsConfig.value.options)
  {
    MergedAdds(VolumeName, p.volumes, Pool(SpecVolumes, presets));
    ContainersAfterAdd(p.containers, presets);
  }

  lemma ApplicationExtends(p: PodValue, presets: seq<PodPreset>)
    requires Safe(p, presets)
    ensures Extends(p, Applied(p, presets))
  {
    if presets != [] {
      ContainersAfterExtend(p.containers, presets);
      AnnotatedExtends(p.annotations, presets);
    }
  }

  /** What the check is for: applying without it loses a volume the pod came with exactly
      when there is one to lose and some injected volume conflicts. */
  lemma UncheckedApplicationLoses(p: PodValue, presets: seq<PodPreset>)
    ensures p.volumes <= Applied(p, presets).volumes
            <==> p.volumes == [] || Compatible(VolumeName, p.volumes, Pool(SpecVolumes, presets))
  {
    ConflictFree(VolumeName, p.volumes, Pool(SpecVolumes, presets));
  }

  // ---------- one admission, and any run of admissions ----------

  /** The keys that exempt a pod are not reserved, so no admission can set or clear them. */
  lemma ExemptionIsStable(p: PodValue, q: PodValue)
    requires Extends(p, q)
    ensures Exempt(q) <==> Exempt(p)
  {
    assert !Reserved(MIRROR_KEY) && !Reserved(OPT_OUT_KEY) by {
      assert AnnotationKey("")[0] == 'c' && MIRROR_KEY[0] == 'k' && OPT_OUT_KEY[0] == 'p';
    }
  }

  lemma {:induction false} NoPresetsAllSafe(cs: seq<Container>)
    ensures AllSafe(cs, [])
  {
    if cs != [] {
      NoPresetsAllSafe(cs[..|cs| - 1]);
    }
  }

  lemma NothingIsSafe(p: PodValue)
    ensures Safe(p, [])
  {
    NoPresetsAllSafe(p.containers);
  }

  lemma LeftAloneOrApplied(p: PodValue, listed: Option<seq<PodPreset>>, namespace: string, selects: SelectorSemantics)
    returns (presets: seq<PodPreset>)
    ensures Safe(p, presets)
    ensures Mutated(p, listed, namespace, selects).1 == Applied(p, presets)
    ensures forall pp :: pp in presets ==> listed.Some? && pp in listed.value
  {
    presets := [];
    NothingIsSafe(p);
    if listed.Some? && !Exempt(p) && !SelectionFails(p, listed.value, namespace, selects) {
      var selected := Selected(listed.value, p.labels, namespace, selects);
      if Safe(p, selected) {
        presets := selected;
      }
    }
  }

  /** An admission leaves the pod alone or extends it. */
  lemma AdmissionExtends(p: PodValue, listed: Option<seq<PodPreset>>, namespace: string, selects: SelectorSemantics)
    ensures Extends(p, Mutated(p, listed, namespace, selects).1)
  {
    var presets := LeftAloneOrApplied(p, listed, namespace, selects);
    ApplicationExtends(p, presets);
  }

  /** What one admission sees besides the pod. */
  datatype Admission = Admission(listed: Option<seq<PodPreset>>, namespace: string, selects: SelectorSemantics)

  ghost function Run(p: PodValue, admissions: seq<Admission>): PodValue
  {
    if admissions == [] then p
    else
      var a := admissions[|admissions| - 1];
      Mutated(Run(p, admissions[..|admissions| - 1]), a.listed, a.namespace, a.selects).1
  }

  ghost predicate ListedIn(pp: PodPreset, admissions: seq<Admission>)
  {
    exists i :: 0 <= i < |admissions| && admissions[i].listed.Some? && pp in admissions[i].listed.value
  }

  /** Every run of admissions, whatever each of them lists and however it ends, is one
      checked application of presets that were listed on the way. */
  lemma {:induction false} RunIsOneApplication(p: PodValue, admissions: seq<Admission>) returns (taken: seq<PodPreset>)
    ensures Safe(p, taken) && Run(p, admissions) == Applied(p, taken)
    ensures forall pp :: pp in taken ==> ListedIn(pp, admissions)
  {
    if admissions == [] {
      taken := [];
      NothingIsSafe(p);
    } else {
      var n := |admissions| - 1;
      var a := admissions[n];
      var before := RunIsOneApplication(p, admissions[..n]);
      var presets := LeftAloneOrApplied(Run(p, admissions[..n]), a.listed, a.namespace, a.selects);
      PresetBatch(p, before, presets);
      taken := before + presets;
      forall pp | pp in taken
        ensures ListedIn(pp, admissions)
      {
        if pp in before {
          var i :| 0 <= i < n && admissions[..n][i].listed.Some? && pp in admissions[..n][i].listed.value;
          assert admissions[i].listed.Some? && pp in admissions[i].listed.value;
        }
      }
    }
  }

  /** So whatever the pod came with stays. */
  lemma RunExtends(p: PodValue, admissions: seq<Admission>)
    ensures Extends(p, Run(p, admissions))
    ensures Exempt(Run(p, admissions)) <==> Exempt(p)
  {
    var taken := RunIsOneApplication(p, admissions);
    ApplicationExtends(p, taken);
    ExemptionIsStable(p, Run(p, admissions));
  }

  /** No name is doubled by injection. */
  ghost predicate DistinctNames(p: PodValue)
  {
    && DistinctKeys(VolumeName, p.volumes)
    && forall i :: 0 <= i < |p.containers| ==> DistinctInContainer(p.containers[i])
  }

  ghost predicate DistinctInContainer(c: Container)
  {
    DistinctKeys(EnvName, c.env) && DistinctKeys(MountName, c.volumeMounts) && DistinctKeys(MountPath, c.volumeMounts)
  }

  lemma ContainerKeepsDistinct(c: Container, presets: seq<PodPreset>)
    requires SafeOnContainer(c, presets) && DistinctInContainer(c)
    ensures DistinctInContainer(ContainerAfter(c, presets))
  {
    DistinctKeysKept(EnvName, c.env, Pool(SpecEnv, presets));
    SafeContainerMeaning(c, presets);
    InjectedMountsAreFresh(c.volumeMounts, Pool(SpecMounts, presets));
  }

  lemma AppliedKeepsDistinct(p: PodValue, presets: seq<PodPreset>)
    requires Safe(p, presets) && DistinctNames(p)
    ensures DistinctNames(Applied(p, presets))
  {
    if presets != [] {
      DistinctKeysKept(VolumeName, p.volumes, Pool(SpecVolumes, presets));
      AllSafeAt(p.containers, presets);
      var q := Applied(p, presets);
      forall i | 0 <= i < |q.containers|
        ensures DistinctInContainer(q.containers[i])
      {
        ContainersAfterAt(p.containers, presets, i);
        ContainerKeepsDistinct(p.containers[i], presets);
      }
    }
  }

  lemma RunKeepsDistinct(p: PodValue, admissions: seq<Admission>)
    requires DistinctNames(p)
    ensures DistinctNames(Run(p, admissions))
  {
    var taken := RunIsOneApplication(p, admissions);
    AppliedKeepsDistinct(p, taken);
  }

  // ---------- presets in two batches ----------

  lemma {:induction false} AnnotatedBatch(m: map<string, string>, a: seq<PodPreset>, b: seq<PodPreset>)
    ensures Annotated(m, a + b) == Annotated(Annotated(m, a), b)
  {
    if b == [] {
      assert a + b == a;
    } else {
      AnnotatedBatch(m, a, b[..|b| - 1]);
      assert (a + b)[..|a + b| - 1] == a + b[..|b| - 1];
    }
  }

  lemma DNSTwice(policy: string, config: Option<DNSConfig>)
    ensures DNSAfter(policy, DNSAfter(policy, config)) == DNSAfter(policy, config)
  {
  }

  lemma NamedBatch<T>(key: T -> string, spec: PodPreset -> seq<T>, orig: seq<T>, a: seq<PodPreset>, b: seq<PodPreset>)
    ensures var r := MergeResult(key, orig, Pool(spec, a + b));
            var r1 := MergeResult(key, orig, Pool(spec, a));
            var r2 := MergeResult(key, Kept(r1), Pool(spec, b));
            && (r.Ok? <==> r1.Ok? && r2.Ok?)
            && (r.Ok? ==> r.value == r2.value)
  {
    PoolConcat(spec, a, b);
    ConflictsBatch(key, orig, Pool(spec, a), Pool(spec, b));
    MergedBatch(key, orig, Pool(spec, a), Pool(spec, b));
  }

  lemma MountsBatch(mounts: seq<VolumeMount>, a: seq<PodPreset>, b: seq<PodPreset>)
    ensures var r := MountResult(mounts, Pool(SpecMounts, a + b));
            var r1 := MountResult(mounts, Pool(SpecMounts, a));
            var r2 := MountResult(Kept(r1), Pool(SpecMounts, b));
            && (r.Ok? <==> r1.Ok? && r2.Ok?)
            && (r.Ok? ==> r.value == r2.value)
  {
    PoolConcat(SpecMounts, a, b);
    var ma, mb := Pool(SpecMounts, a), Pool(SpecMounts, b);
    MountConflictFree(mounts, ma + mb);
    MountConflictFree(mounts, ma);
    MountConflictFree(Merged(MountName, mounts, ma), mb);
    MountBatch(mounts, ma, mb);
  }

  lemma ContainerBatchVerdict(c: Container, a: seq<PodPreset>, b: seq<PodPreset>)
    ensures SafeOnContainer(c, a + b) <==> SafeOnContainer(c, a) && SafeOnContainer(ContainerAfter(c, a), b)
  {
    NamedBatch(EnvName, SpecEnv, c.env, a, b);
    MountsBatch(c.volumeMounts, a, b);
  }

  lemma ContainerBatchResult(c: Container, a: seq<PodPreset>, b: seq<PodPreset>)
    requires SafeOnContainer(c, a + b)
    ensures ContainerAfter(c, a + b) == ContainerAfter(ContainerAfter(c, a), b)
  {
    NamedBatch(EnvName, SpecEnv, c.env, a, b);
    MountsBatch(c.volumeMounts, a, b);
    PoolConcat(SpecEnvFrom, a, b);
  }

  lemma {:induction false} ContainersBatch(cs: seq<Container>, a: seq<PodPreset>, b: seq<PodPreset>)
    ensures AllSafe(cs, a + b) <==> AllSafe(cs, a) && AllSafe(ContainersAfter(cs, a), b)
    ensures AllSafe(cs, a + b) ==> ContainersAfter(cs, a + b) == ContainersAfter(ContainersAfter(cs, a), b)
  {
    if cs != [] {
      var rest, last := cs[..|cs| - 1], cs[|cs| - 1];
      ContainersBatch(rest, a, b);
      ContainerBatchVerdict(last, a, b);
      if AllSafe(cs, a + b) {
        ContainerBatchResult(last, a, b);
      }
      Snoc(ContainersAfter(rest, a), ContainerAfter(last, a));
    }
  }

  /** Checking and applying the presets `a + b` is checking and applying `a` and then
      checking and applying `b` to the result. */
  lemma PresetBatch(p: PodValue, a: seq<PodPreset>, b: seq<PodPreset>)
    ensures Safe(p, a + b) <==> Safe(p, a) && Safe(Applied(p, a), b)
    ensures Safe(p, a + b) ==> Applied(p, a + b) == Applied(Applied(p, a), b)
  {
    if a == [] {
      assert a + b == b;
      NothingIsSafe(p);
    } else {
      NamedBatch(VolumeName, SpecVolumes, p.volumes, a, b);
      ContainersBatch(p.containers, a, b);
      AnnotatedBatch(p.annotations, a, b);
      if b == [] {
        assert a + b == a;
      }
      DNSTwice(p.dnsPolicy, p.dnsConfig);
    }
  }
}
