/** The webhook sees a pod on creation and on every update, so the same presets meet the
    same pod any number of times. */
module PodReadmission {
  import opened Results
  import opened Pooling
  import opened PodTypes
  import opened KeyedMerge
  import opened PodMerge
  import opened PodMutation
  import opened PodTheorems

  function Repeat<T>(s: seq<T>, n: nat): seq<T>
  {
    if n == 0 then [] else Repeat(s, n - 1) + s
  }

  /** A container after `n` applications: as after the first, except that the sources of
      environment variables have been appended `n` times. */
  function SettledContainer(c: Container, presets: seq<PodPreset>, n: nat): Container
  {
    ContainerAfter(c, presets).(envFrom := c.envFrom + Repeat(Pool(SpecEnvFrom, presets), n))
  }

  function SettledContainers(cs: seq<Container>, presets: seq<PodPreset>, n: nat): (r: seq<Container>)
    ensures |r| == |cs|
  {
    if cs == [] then []
    else SettledContainers(cs[..|cs| - 1], presets, n) + [SettledContainer(cs[|cs| - 1], presets, n)]
  }

  function Settled(p: PodValue, presets: seq<PodPreset>, n: nat): PodValue
  {
    Applied(p, presets).(containers := SettledContainers(p.containers, presets, n))
  }

  // ---------- applying the same presets again ----------

  lemma NamedTwice<T>(key: T -> string, orig: seq<T>, items: seq<T>)
    requires MergeResult(key, orig, items).Ok?
    ensures MergeResult(key, Merged(key, orig, items), items) == Ok(Merged(key, orig, items))
  {
    MergeTwice(key, orig, items);
    ConflictFree(key, orig, items);
    ConflictFree(key, Merged(key, orig, items), items);
  }

  lemma MountsTwice(orig: seq<VolumeMount>, items: seq<VolumeMount>)
    requires MountResult(orig, items).Ok?
    ensures MountResult(Merged(MountName, orig, items), items) == Ok(Merged(MountName, orig, items))
  {
    MountConflictFree(orig, items);
    IndexesAgree(orig, items);
    MergeTwice(MountName, orig, items);
    MergeTwice(MountPath, orig, items);
    MountConflictFree(Merged(MountName, orig, items), items);
  }

  lemma {:induction false} AnnotatedAdds(m: map<string, string>, presets: seq<PodPreset>)
    ensures Annotated(m, presets) == m + Annotated(map[], presets)
  {
    if presets != [] {
      AnnotatedAdds(m, presets[..|presets| - 1]);
    }
  }

  lemma AnnotatedTwice(m: map<string, string>, presets: seq<PodPreset>)
    ensures Annotated(Annotated(m, presets), presets) == Annotated(m, presets)
  {
    AnnotatedAdds(m, presets);
    AnnotatedAdds(Annotated(m, presets), presets);
  }

  lemma ContainerAgain(c: Container, presets: seq<PodPreset>, n: nat)
    requires SafeOnContainer(c, presets)
    ensures var d := SettledContainer(c, presets, n);
            SafeOnContainer(d, presets) && ContainerAfter(d, presets) == SettledContainer(c, presets, n + 1)
  {
    NamedTwice(EnvName, c.env, Pool(SpecEnv, presets));
    MountsTwice(c.volumeMounts, Pool(SpecMounts, presets));
    var pool := Pool(SpecEnvFrom, presets);
    assert (c.envFrom + Repeat(pool, n)) + pool == c.envFrom + Repeat(pool, n + 1);
  }

  lemma {:induction false} ContainersAgain(cs: seq<Container>, presets: seq<PodPreset>, n: nat)
    requires AllSafe(cs, presets)
    ensures var ds := SettledContainers(cs, presets, n);
            AllSafe(ds, presets) && ContainersAfter(ds, presets) == SettledContainers(cs, presets, n + 1)
  {
    if cs != [] {
      var rest, last := cs[..|cs| - 1], cs[|cs| - 1];
      ContainersAgain(rest, presets, n);
      ContainerAgain(last, presets, n);
      Snoc(SettledContainers(rest, presets, n), SettledContainer(last, presets, n));
    }
  }

  lemma {:induction false} ContainersOnce(cs: seq<Container>, presets: seq<PodPreset>)
    ensures SettledContainers(cs, presets, 1) == ContainersAfter(cs, presets)
  {
    if cs != [] {
      ContainersOnce(cs[..|cs| - 1], presets);
      var pool := Pool(SpecEnvFrom, presets);
      assert Repeat(pool, 1) == pool;
    }
  }

  /** After a first checked application the check still passes, and another application
      changes nothing but the sources of environment variables, appended once more. */
  lemma ApplyAgain(p: PodValue, presets: seq<PodPreset>, n: nat)
    requires presets != [] && Safe(p, presets) && n >= 1
    ensures Safe(Settled(p, presets, n), presets)
    ensures Applied(Settled(p, presets, n), presets) == Settled(p, presets, n + 1)
  {
    NamedTwice(VolumeName, p.volumes, Pool(SpecVolumes, presets));
    ContainersAgain(p.containers, presets, n);
    AnnotatedTwice(p.annotations, presets);
    DNSTwice(p.dnsPolicy, p.dnsConfig);
  }

  lemma ApplyOnce(p: PodValue, presets: seq<PodPreset>)
    ensures Applied(p, presets) == if presets == [] then p else Settled(p, presets, 1)
  {
    ContainersOnce(p.containers, presets);
  }

  lemma {:induction false} RepeatNothing<T>(n: nat)
    ensures Repeat<T>([], n) == []
  {
    if n > 0 {
      RepeatNothing<T>(n - 1);
    }
  }

  lemma {:induction false} RepeatGrows<T>(s: seq<T>, n: nat)
    requires s != [] && n >= 2
    ensures |Repeat(s, n)| > |Repeat(s, 1)|
  {
    assert Repeat(s, 1) == [] + s;
    if n > 2 {
      RepeatGrows(s, n - 1);
    } else {
      assert Repeat(s, 2) == Repeat(s, 1) + s;
    }
  }

  lemma {:induction false} SettledContainersSame(cs: seq<Container>, presets: seq<PodPreset>, m: nat, n: nat)
    requires Pool(SpecEnvFrom, presets) == []
    ensures SettledContainers(cs, presets, m) == SettledContainers(cs, presets, n)
  {
    if cs != [] {
      SettledContainersSame(cs[..|cs| - 1], presets, m, n);
      RepeatNothing<EnvFromSource>(m);
      RepeatNothing<EnvFromSource>(n);
    }
  }

  lemma SettledContainersLast(cs: seq<Container>, presets: seq<PodPreset>, n: nat)
    requires cs != []
    ensures SettledContainers(cs, presets, n)[|cs| - 1].envFrom
            == cs[|cs| - 1].envFrom + Repeat(Pool(SpecEnvFrom, presets), n)
  {
  }

  lemma SettledSameIff(p: PodValue, presets: seq<PodPreset>, n: nat)
    requires n >= 2
    ensures Settled(p, presets, n) == Settled(p, presets, 1)
            <==> p.containers == [] || Pool(SpecEnvFrom, presets) == []
  {
    var cs, pool := p.containers, Pool(SpecEnvFrom, presets);
    if pool == [] {
      SettledContainersSame(cs, presets, n, 1);
    } else if cs != [] {
      RepeatGrows(pool, n);
      SettledContainersLast(cs, presets, 1);
      SettledContainersLast(cs, presets, n);
      assert SettledContainers(cs, presets, n) != SettledContainers(cs, presets, 1);
    }
  }

  /** A second application changes nothing exactly when there is nothing to append. */
  lemma IdempotentIff(p: PodValue, presets: seq<PodPreset>)
    requires presets != [] && Safe(p, presets)
    ensures Applied(Applied(p, presets), presets) == Applied(p, presets)
            <==> p.containers == [] || Pool(SpecEnvFrom, presets) == []
  {
    ApplyOnce(p, presets);
    ApplyAgain(p, presets, 1);
    SettledSameIff(p, presets, 2);
  }

  // ---------- any number of admissions under one preset list ----------

  ghost function Readmitted(p: PodValue, n: nat, listed: Option<seq<PodPreset>>, namespace: string, selects: SelectorSemantics)
    : PodValue
  {
    if n == 0 then p
    else Mutated(Readmitted(p, n - 1, listed, namespace, selects), listed, namespace, selects).1
  }

  ghost predicate Takes(p: PodValue, listed: Option<seq<PodPreset>>, namespace: string, selects: SelectorSemantics)
  {
    && !Exempt(p) && listed.Some? && !SelectionFails(p, listed.value, namespace, selects)
    && Selected(listed.value, p.labels, namespace, selects) != []
    && Safe(p, Selected(listed.value, p.labels, namespace, selects))
  }

  lemma SettledExemption(p: PodValue, presets: seq<PodPreset>, n: nat)
    requires presets != [] && Safe(p, presets) && n >= 1
    ensures Exempt(Settled(p, presets, n)) <==> Exempt(p)
    ensures Settled(p, presets, n).labels == p.labels
  {
    ApplicationExtends(p, presets);
    ExemptionIsStable(p, Applied(p, presets));
  }

  /** A pod is changed by an admission only if it is taken. */
  lemma TakenOrNot(p: PodValue, listed: Option<seq<PodPreset>>, namespace: string, selects: SelectorSemantics)
    ensures Mutated(p, listed, namespace, selects).1
            == if Takes(p, listed, namespace, selects)
               then Applied(p, Selected(listed.value, p.labels, namespace, selects)) else p
  {
  }

  lemma StillTaken(p: PodValue, q: PodValue, listed: Option<seq<PodPreset>>, namespace: string,
                   selects: SelectorSemantics)
    requires Takes(p, listed, namespace, selects)
    requires q.labels == p.labels && !Exempt(q)
    requires Safe(q, Selected(listed.value, p.labels, namespace, selects))
    ensures Takes(q, listed, namespace, selects)
  {
  }

  /** Eligibility is stable and the result settles: after `n` admissions the pod is as
      after the first, but for `n` copies of the injected environment sources. A pod
      that is not taken the first time is never changed. */
  lemma {:induction false} ReadmissionSettles(p: PodValue, n: nat, listed: Option<seq<PodPreset>>,
                                              namespace: string, selects: SelectorSemantics)
    requires n >= 1
    ensures var q := Readmitted(p, n, listed, namespace, selects);
            if Takes(p, listed, namespace, selects)
            then && q == Settled(p, Selected(listed.value, p.labels, namespace, selects), n)
                 && Takes(q, listed, namespace, selects)
                 && q.labels == p.labels
            else q == p
  {
    var before := Readmitted(p, n - 1, listed, namespace, selects);
    TakenOrNot(before, listed, namespace, selects);
    if n > 1 {
      ReadmissionSettles(p, n - 1, listed, namespace, selects);
    }
    if Takes(p, listed, namespace, selects) {
      var presets := Selected(listed.value, p.labels, namespace, selects);
      if n == 1 {
        ApplyOnce(p, presets);
      } else {
        ApplyAgain(p, presets, n - 1);
      }
      ApplyAgain(p, presets, n);
      SettledExemption(p, presets, n);
      StillTaken(p, Settled(p, presets, n), listed, namespace, selects);
    }
  }

  lemma {:induction false} CopiesPool(pp: PodPreset, k: nat)
    requires k >= 1
    ensures Pool(SpecEnvFrom, Copies(pp, k)) == [] <==> pp.spec.envFrom == []
  {
    if k == 1 {
      assert Copies(pp, 1) == [pp];
      PoolOfOne(SpecEnvFrom, pp);
    } else {
      CopiesPool(pp, k - 1);
      assert Copies(pp, k)[..k - 1] == Copies(pp, k - 1);
    }
  }

  /** Re-admission is idempotent exactly for a pod without containers, or when the last
      listed preset carries no environment sources: otherwise every admission after the
      first differs from it. */
  lemma ReadmissionIdempotentIff(p: PodValue, n: nat, list: seq<PodPreset>, namespace: string,
                                 selects: SelectorSemantics)
    requires n >= 2 && list != [] && Takes(p, Some(list), namespace, selects)
    ensures Readmitted(p, n, Some(list), namespace, selects) == Readmitted(p, 1, Some(list), namespace, selects)
            <==> p.containers == [] || list[|list| - 1].spec.envFrom == []
  {
    var k := |Intended(list, p.labels, namespace, selects)|;
    ReadmissionSettles(p, n, Some(list), namespace, selects);
    ReadmissionSettles(p, 1, Some(list), namespace, selects);
    SettledSameIff(p, Copies(list[|list| - 1], k), n);
    CopiesPool(list[|list| - 1], k);
  }

  /** A pod with nothing to conflict takes a preset with nothing to conflict. */
  lemma PlainIsSafe(p: PodValue, pp: PodPreset)
    requires pp.spec.volumes == [] && pp.spec.env == [] && pp.spec.volumeMounts == []
    ensures Safe(p, [pp])
  {
    PoolOfOne(SpecVolumes, pp);
    PoolOfOne(SpecEnv, pp);
    PoolOfOne(SpecMounts, pp);
    SafeMeaning(p, [pp]);
  }

  lemma OnlyOneListed(pp: PodPreset, labels: Labels, namespace: string, selects: SelectorSemantics)
    requires Selects(pp, labels, namespace, selects)
    ensures Selected([pp], labels, namespace, selects) == [pp]
  {
    assert Intended([pp], labels, namespace, selects) == [] + [pp];
    assert Copies(pp, 1) == [pp];
  }

  /** A pod that a second admission changes. */
  lemma SecondAdmissionAppends() returns (p: PodValue, pp: PodPreset, selects: SelectorSemantics)
    ensures Takes(p, Some([pp]), "apps", selects)
    ensures Readmitted(p, 2, Some([pp]), "apps", selects) != Readmitted(p, 1, Some([pp]), "apps", selects)
  {
    selects := (s, l) => Matches;
    pp := PodPreset("sources", "apps", "1", PodPresetSpec(LabelSelector(""), [], [EnvFromSource("secret")], [], []));
    p := PodValue(map[], map[], [], "Default", None, [Container([], [], [], "")], "");
    PlainIsSafe(p, pp);
    OnlyOneListed(pp, p.labels, "apps", selects);
    ReadmissionIdempotentIff(p, 2, [pp], "apps", selects);
  }

  // ---------- the selection as written ----------

  /** The selection agrees with the intended one exactly when every matching preset
      equals the last listed one. */
  lemma SelectionAgreesIff(list: seq<PodPreset>, labels: Labels, namespace: string, selects: SelectorSemantics)
    ensures Selected(list, labels, namespace, selects) == Intended(list, labels, namespace, selects)
            <==> forall pp :: pp in list && Selects(pp, labels, namespace, selects) ==> pp == list[|list| - 1]
  {
    IntendedMembers(list, labels, namespace, selects);
    var written, intended := Selected(list, labels, namespace, selects), Intended(list, labels, namespace, selects);
    if written == intended {
      forall pp | pp in list && Selects(pp, labels, namespace, selects)
        ensures pp == list[|list| - 1]
      {
        assert pp in intended;
      }
    }
    if forall pp :: pp in list && Selects(pp, labels, namespace, selects) ==> pp == list[|list| - 1] {
      forall i | 0 <= i < |intended|
        ensures intended[i] == written[i]
      {
        assert intended[i] in intended;
      }
    }
  }

  /** A pod can receive a preset of another namespace that does not select it. */
  lemma ForeignPresetSelected(mine: PodPreset, foreign: PodPreset, labels: Labels, selects: SelectorSemantics)
    requires mine.namespace == "apps" && foreign.namespace == "other"
    requires selects(mine.spec.selector, labels).Matches?
    ensures Selected([mine, foreign], labels, "apps", selects) == [foreign]
    ensures Intended([mine, foreign], labels, "apps", selects) == [mine]
  {
    var list := [mine, foreign];
    assert list[..1] == [mine] && [mine][..0] == [];
    assert Intended([mine], labels, "apps", selects) == [] + [mine];
    assert Copies(foreign, 1) == [foreign];
  }

  function Iterate<T>(f: T -> T, x: T, n: nat): T
  {
    if n == 0 then x else f(Iterate(f, x, n - 1))
  }

  lemma {:induction false} IteratePlus<T>(f: T -> T, x: T, m: nat, n: nat)
    ensures Iterate(f, Iterate(f, x, m), n) == Iterate(f, x, m + n)
  {
    if n > 0 {
      IteratePlus(f, x, m, n - 1);
      assert m + n - 1 == m + (n - 1);
    }
  }

  function Applying(presets: seq<PodPreset>): PodValue -> PodValue
  {
    p => Applied(p, presets)
  }

  /** The presets applied `n` times over. */
  function Times(p: PodValue, presets: seq<PodPreset>, n: nat): PodValue
  {
    Iterate(Applying(presets), p, n)
  }

  lemma {:induction false} TimesSettle(p: PodValue, presets: seq<PodPreset>, n: nat)
    requires presets != [] && Safe(p, presets)
    ensures Safe(Times(p, presets, n), presets)
    ensures n >= 1 ==> Times(p, presets, n) == Settled(p, presets, n)
  {
    if n == 1 {
      assert Times(p, presets, 0) == p;
      ApplyOnce(p, presets);
      ApplyAgain(p, presets, 1);
    } else if n > 1 {
      TimesSettle(p, presets, n - 1);
      ApplyAgain(p, presets, n - 1);
      ApplyAgain(p, presets, n);
    }
  }

  /** Applying `k` pointers to one preset is applying that preset `k` times. */
  lemma {:induction false} CopiesCollapse(p: PodValue, pp: PodPreset, k: nat)
    requires k >= 1
    ensures Safe(p, Copies(pp, k)) <==> Safe(p, [pp])
    ensures Safe(p, [pp]) ==> Applied(p, Copies(pp, k)) == Times(p, [pp], k)
  {
    if k == 1 {
      assert Copies(pp, 1) == [pp];
      assert Times(p, [pp], 0) == p;
    } else {
      CopiesCollapse(p, pp, k - 1);
      PresetBatch(p, Copies(pp, k - 1), [pp]);
      if Safe(p, [pp]) {
        TimesSettle(p, [pp], k - 1);
      }
    }
  }

  lemma ReadmissionStep(p: PodValue, n: nat, listed: Option<seq<PodPreset>>, namespace: string,
                        selects: SelectorSemantics)
    requires n >= 1 && Takes(p, listed, namespace, selects)
    ensures Readmitted(p, n, listed, namespace, selects)
            == Applied(Readmitted(p, n - 1, listed, namespace, selects),
                       Selected(listed.value, p.labels, namespace, selects))
  {
    TakenOrNot(Readmitted(p, n - 1, listed, namespace, selects), listed, namespace, selects);
    if n > 1 {
      ReadmissionSettles(p, n - 1, listed, namespace, selects);
    }
  }

  lemma CopiesAfterTimes(p: PodValue, pp: PodPreset, n: nat, k: nat, before: PodValue, after: PodValue)
    requires n >= 1 && k >= 1 && Safe(p, Copies(pp, k))
    requires before == Times(p, [pp], Rounds(n - 1, k)) && after == Applied(before, Copies(pp, k))
    ensures after == Times(p, [pp], Rounds(n, k))
  {
    var m := Rounds(n - 1, k);
    assert Rounds(n, k) == m + k;
    assert Times(before, [pp], k) == Times(p, [pp], m + k) by {
      IteratePlus(Applying([pp]), p, m, k);
    }
    assert after == Times(before, [pp], k) by {
      CopiesCollapse(p, pp, k);
      TimesSettle(p, [pp], m);
      CopiesCollapse(before, pp, k);
    }
  }

  /** `n` rounds of `k`, counted as they are made. */
  function Rounds(n: nat, k: nat): nat
  {
    if n == 0 then 0 else Rounds(n - 1, k) + k
  }

  lemma {:induction false} ReadmissionRounds(p: PodValue, n: nat, list: seq<PodPreset>, namespace: string,
                                             selects: SelectorSemantics, last: PodPreset, k: nat)
    requires list != [] && last == list[|list| - 1]
    requires k == |Intended(list, p.labels, namespace, selects)|
    requires Takes(p, Some(list), namespace, selects)
    ensures Readmitted(p, n, Some(list), namespace, selects) == Times(p, [last], Rounds(n, k))
  {
    if n > 0 {
      ReadmissionRounds(p, n - 1, list, namespace, selects, last, k);
      ReadmissionStep(p, n, Some(list), namespace, selects);
      CopiesAfterTimes(p, last, n, k, Readmitted(p, n - 1, Some(list), namespace, selects),
                       Readmitted(p, n, Some(list), namespace, selects));
    }
  }

  lemma {:induction false} RoundsAreProduct(n: nat, k: nat)
    ensures Rounds(n, k) == n * k
  {
    if n > 0 {
      RoundsAreProduct(n - 1, k);
    }
  }

  /** What the code does to a pod in the end: the last listed preset is applied once per
      intended match and per admission, whatever the matching presets hold. */
  lemma ReadmissionAsWritten(p: PodValue, n: nat, list: seq<PodPreset>, namespace: string,
                             selects: SelectorSemantics, last: PodPreset, k: nat)
    requires list != [] && last == list[|list| - 1]
    requires k == |Intended(list, p.labels, namespace, selects)|
    requires Takes(p, Some(list), namespace, selects)
    ensures Readmitted(p, n, Some(list), namespace, selects) == Times(p, [last], n * k)
  {
    RoundsAreProduct(n, k);
    ReadmissionRounds(p, n, list, namespace, selects, last, k);
  }
}
