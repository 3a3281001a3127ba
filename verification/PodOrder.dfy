/** What the order of presets can change: nothing but the order of what is injected, as
    long as it is the presets handed to the check and the application that are reordered;
    the list the selection starts from is another matter. */
module PodOrder {
  import opened Results
  import opened Pooling
  import opened PodTypes
  import opened KeyedMerge
  import opened PodMerge
  import opened PodMutation
  import opened PodTheorems
  import opened PodReadmission

  // ---------- presets handed to the check ----------

  /** The same items are on offer, in whatever order and from whichever preset. */
  ghost predicate SameOffer(a: seq<PodPreset>, b: seq<PodPreset>)
  {
    && multiset(Pool(SpecVolumes, a)) == multiset(Pool(SpecVolumes, b))
    && multiset(Pool(SpecEnv, a)) == multiset(Pool(SpecEnv, b))
    && multiset(Pool(SpecMounts, a)) == multiset(Pool(SpecMounts, b))
  }

  lemma ReorderedPresets(a: seq<PodPreset>, b: seq<PodPreset>)
    requires multiset(a) == multiset(b)
    ensures SameOffer(a, b)
  {
    PoolReordered(SpecVolumes, a, b);
    PoolReordered(SpecEnv, a, b);
    PoolReordered(SpecMounts, a, b);
  }

  ghost predicate ItemsReordered(s: PodPreset, t: PodPreset)
  {
    && multiset(s.spec.volumes) == multiset(t.spec.volumes)
    && multiset(s.spec.env) == multiset(t.spec.env)
    && multiset(s.spec.volumeMounts) == multiset(t.spec.volumeMounts)
  }

  lemma {:induction false} ReorderedItems(a: seq<PodPreset>, b: seq<PodPreset>)
    requires |a| == |b| && forall i :: 0 <= i < |a| ==> ItemsReordered(a[i], b[i])
    ensures SameOffer(a, b)
  {
    if a != [] {
      ReorderedItems(a[..|a| - 1], b[..|b| - 1]);
      assert ItemsReordered(a[|a| - 1], b[|b| - 1]);
    }
  }

  /** Only the injected suffix may change, and only by a permutation. */
  ghost predicate SameButPermuted<T>(orig: seq<T>, s: seq<T>, t: seq<T>)
  {
    orig <= s && orig <= t && multiset(s[|orig|..]) == multiset(t[|orig|..])
  }

  lemma ContainerOrder(c: Container, a: seq<PodPreset>, b: seq<PodPreset>)
    requires SameOffer(a, b)
    ensures SafeOnContainer(c, a) <==> SafeOnContainer(c, b)
    ensures SafeOnContainer(c, a)
            ==> && SameButPermuted(c.env, ContainerAfter(c, a).env, ContainerAfter(c, b).env)
                && SameButPermuted(c.volumeMounts, ContainerAfter(c, a).volumeMounts, ContainerAfter(c, b).volumeMounts)
  {
    SafeContainerMeaning(c, a);
    SafeContainerMeaning(c, b);
    OrderIndependent(EnvName, c.env, Pool(SpecEnv, a), Pool(SpecEnv, b));
    OrderIndependent(MountName, c.volumeMounts, Pool(SpecMounts, a), Pool(SpecMounts, b));
    OrderIndependent(MountPath, c.volumeMounts, Pool(SpecMounts, a), Pool(SpecMounts, b));
  }

  /** Reordering the presets, or the items within them, never changes the verdict of the
      check, and on success only permutes what is injected. */
  lemma PresetOrder(p: PodValue, a: seq<PodPreset>, b: seq<PodPreset>)
    requires SameOffer(a, b) && (a == [] <==> b == [])
    ensures Safe(p, a) <==> Safe(p, b)
    ensures Safe(p, a) ==> SameButPermuted(p.volumes, Applied(p, a).volumes, Applied(p, b).volumes)
    ensures Safe(p, a) ==> forall i :: 0 <= i < |p.containers| ==>
              && SameButPermuted(p.containers[i].env, Applied(p, a).containers[i].env, Applied(p, b).containers[i].env)
              && SameButPermuted(p.containers[i].volumeMounts, Applied(p, a).containers[i].volumeMounts,
                                 Applied(p, b).containers[i].volumeMounts)
  {
    OrderIndependent(VolumeName, p.volumes, Pool(SpecVolumes, a), Pool(SpecVolumes, b));
    ConflictFree(VolumeName, p.volumes, Pool(SpecVolumes, a));
    ConflictFree(VolumeName, p.volumes, Pool(SpecVolumes, b));
    AllSafeAt(p.containers, a);
    AllSafeAt(p.containers, b);
    forall c | c in p.containers { ContainerOrder(c, a, b); }
    if Safe(p, a) && a != [] {
      forall i | 0 <= i < |p.containers|
        ensures && SameButPermuted(p.containers[i].env, Applied(p, a).containers[i].env, Applied(p, b).containers[i].env)
                && SameButPermuted(p.containers[i].volumeMounts, Applied(p, a).containers[i].volumeMounts,
                                   Applied(p, b).containers[i].volumeMounts)
      {
        ContainersAfterAt(p.containers, a, i);
        ContainersAfterAt(p.containers, b, i);
        ContainerOrder(p.containers[i], a, b);
      }
    }
  }

  // ---------- presets as they are listed ----------

  function Picks(labels: Labels, namespace: string, selects: SelectorSemantics): PodPreset -> seq<PodPreset>
  {
    pp => if Selects(pp, labels, namespace, selects) then [pp] else []
  }

  lemma {:induction false} IntendedIsPool(list: seq<PodPreset>, labels: Labels, namespace: string,
                                          selects: SelectorSemantics)
    ensures Intended(list, labels, namespace, selects) == Pool(Picks(labels, namespace, selects), list)
  {
    if list != [] {
      IntendedIsPool(list[..|list| - 1], labels, namespace, selects);
    }
  }

  /** Reordering the listed presets only reorders the intended selection, which therefore
      offers the same items. */
  lemma IntendedReordered(list: seq<PodPreset>, other: seq<PodPreset>, labels: Labels, namespace: string,
                          selects: SelectorSemantics)
    requires multiset(list) == multiset(other)
    ensures multiset(Intended(list, labels, namespace, selects)) == multiset(Intended(other, labels, namespace, selects))
    ensures SameOffer(Intended(list, labels, namespace, selects), Intended(other, labels, namespace, selects))
  {
    IntendedIsPool(list, labels, namespace, selects);
    IntendedIsPool(other, labels, namespace, selects);
    PoolReordered(Picks(labels, namespace, selects), list, other);
    ReorderedPresets(Intended(list, labels, namespace, selects), Intended(other, labels, namespace, selects));
  }

  ghost predicate NothingMatches(list: seq<PodPreset>, labels: Labels, namespace: string, selects: SelectorSemantics)
  {
    forall pp :: pp in list ==> !Selects(pp, labels, namespace, selects)
  }

  ghost predicate AllEqual(list: seq<PodPreset>)
  {
    forall pp, qq :: pp in list && qq in list ==> pp == qq
  }

  ghost predicate SelectionOrderFree(list: seq<PodPreset>, labels: Labels, namespace: string, selects: SelectorSemantics)
  {
    forall other :: multiset(other) == multiset(list)
                    ==> Selected(other, labels, namespace, selects) == Selected(list, labels, namespace, selects)
  }

  lemma SameNumberIntended(list: seq<PodPreset>, other: seq<PodPreset>, labels: Labels, namespace: string,
                           selects: SelectorSemantics)
    requires multiset(list) == multiset(other)
    ensures |Intended(list, labels, namespace, selects)| == |Intended(other, labels, namespace, selects)|
  {
    IntendedReordered(list, other, labels, namespace, selects);
    var a, b := Intended(list, labels, namespace, selects), Intended(other, labels, namespace, selects);
    assert |a| == |multiset(a)| && |b| == |multiset(b)|;
  }

  lemma NoneIntended(list: seq<PodPreset>, labels: Labels, namespace: string, selects: SelectorSemantics)
    ensures NothingMatches(list, labels, namespace, selects) <==> |Intended(list, labels, namespace, selects)| == 0
  {
    IntendedMembers(list, labels, namespace, selects);
    var intended := Intended(list, labels, namespace, selects);
    if intended != [] {
      assert intended[0] in intended;
    }
  }

  function ToEnd(list: seq<PodPreset>, i: nat): (r: seq<PodPreset>)
    requires i < |list|
    ensures multiset(r) == multiset(list) && |r| == |list| && r[|r| - 1] == list[i]
  {
    assert list == list[..i] + [list[i]] + list[i + 1..];
    list[..i] + list[i + 1..] + [list[i]]
  }

  /** The selection as written is the same for every order of the listed presets exactly
      when nothing matches or all listed presets, matching or not, are equal. */
  lemma SelectionOrderFreeIff(list: seq<PodPreset>, labels: Labels, namespace: string, selects: SelectorSemantics)
    ensures SelectionOrderFree(list, labels, namespace, selects)
            <==> NothingMatches(list, labels, namespace, selects) || AllEqual(list)
  {
    NoneIntended(list, labels, namespace, selects);
    if NothingMatches(list, labels, namespace, selects) || AllEqual(list) {
      forall other | multiset(other) == multiset(list)
        ensures Selected(other, labels, namespace, selects) == Selected(list, labels, namespace, selects)
      {
        SelectedReordered(list, other, labels, namespace, selects);
      }
    } else {
      var n := |list| - 1;
      var pp, qq :| pp in list && qq in list && pp != qq;
      var odd := if pp == list[n] then qq else pp;
      var i :| 0 <= i < |list| && list[i] == odd;
      var other := ToEnd(list, i);
      SameNumberIntended(list, other, labels, namespace, selects);
      assert Selected(other, labels, namespace, selects)[0] == odd;
      assert Selected(list, labels, namespace, selects)[0] == list[n];
    }
  }

  lemma SelectedReordered(list: seq<PodPreset>, other: seq<PodPreset>, labels: Labels, namespace: string,
                          selects: SelectorSemantics)
    requires multiset(other) == multiset(list)
    requires NothingMatches(list, labels, namespace, selects) || AllEqual(list)
    ensures Selected(other, labels, namespace, selects) == Selected(list, labels, namespace, selects)
  {
    NoneIntended(list, labels, namespace, selects);
    SameNumberIntended(list, other, labels, namespace, selects);
    SameMembers(other, list);
    assert |other| == |multiset(other)| == |multiset(list)| == |list|;
    if list != [] {
      assert other[|other| - 1] in other && list[|list| - 1] in list;
    }
  }

  /** Then an admission is the same, answer and pod, for every order of the listed presets. */
  lemma AdmissionReordered(p: PodValue, list: seq<PodPreset>, other: seq<PodPreset>, namespace: string,
                           selects: SelectorSemantics)
    requires multiset(other) == multiset(list)
    requires NothingMatches(list, p.labels, namespace, selects) || AllEqual(list)
    ensures Mutated(p, Some(other), namespace, selects) == Mutated(p, Some(list), namespace, selects)
  {
    SelectedReordered(list, other, p.labels, namespace, selects);
    SameMembers(other, list);
    SameMembers(list, other);
  }

  /** Otherwise the order can decide what is injected. */
  lemma ListedOrderMatters() returns (p: PodValue, a: PodPreset, b: PodPreset, selects: SelectorSemantics)
    ensures Mutated(p, Some([a, b]), "apps", selects).1 != Mutated(p, Some([b, a]), "apps", selects).1
  {
    selects := (s, l) => Matches;
    a := PodPreset("a", "apps", "1", PodPresetSpec(LabelSelector(""), [], [], [], []));
    b := PodPreset("b", "other", "1", PodPresetSpec(LabelSelector(""), [], [], [], []));
    p := PodValue(map[], map[], [], "Default", None, [], "");
    PlainIsSafe(p, a);
    PlainIsSafe(p, b);
    ForeignPresetSelected(a, b, p.labels, selects);
    LastIsSelected(a, b, p.labels, selects);
    assert !Exempt(p);
    assert Mutated(p, Some([a, b]), "apps", selects).1.annotations == Annotated(map[], [b]);
    assert Mutated(p, Some([b, a]), "apps", selects).1.annotations == Annotated(map[], [a]);
    OnlyItsAnnotation(a);
    OnlyItsAnnotation(b);
    assert "a"[0] != "b"[0];
    KeysApart("a", "b");
    assert AnnotationKey("b") in Annotated(map[], [b]) && AnnotationKey("b") !in Annotated(map[], [a]);
  }

  lemma LastIsSelected(mine: PodPreset, foreign: PodPreset, labels: Labels, selects: SelectorSemantics)
    requires mine.namespace == "apps" && foreign.namespace == "other"
    requires selects(mine.spec.selector, labels).Matches?
    ensures Selected([foreign, mine], labels, "apps", selects) == [mine]
  {
    SameNumberIntended([mine, foreign], [foreign, mine], labels, "apps", selects);
    ForeignPresetSelected(mine, foreign, labels, selects);
    assert Copies(mine, 1) == [mine];
  }

  lemma OnlyItsAnnotation(pp: PodPreset)
    ensures Annotated(map[], [pp]) == map[AnnotationKey(pp.name) := pp.resourceVersion]
  {
    assert [pp][..0] == [];
  }
}
