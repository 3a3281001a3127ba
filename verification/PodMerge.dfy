/** The four merge functions: each walks the presets, keeps its lookup maps in step
    with the growing result, and collects conflicts without stopping. */
module PodMerge {
  import opened Results
  import opened Pooling
  import opened PodTypes
  import opened KeyedMerge

  /** What a merge loop keeps, once it has seen the items `done`: the map is the map of
      the merged list, and nothing has been dropped from the conflicts. */
  ghost predicate MergeState<T>(key: T -> string, orig: seq<T>, done: seq<T>,
                                merged: seq<T>, held: map<string, T>, errs: seq<T>)
  {
    && merged == Merged(key, orig, done)
    && held == Index(key, merged)
    && errs == Conflicts(key, orig, done)
  }

  lemma MergeStep<T>(key: T -> string, orig: seq<T>, done: seq<T>,
                     merged: seq<T>, held: map<string, T>, errs: seq<T>, v: T)
    requires MergeState(key, orig, done, merged, held, errs)
    ensures MergeState(key, orig, done + [v],
                       if key(v) in held then merged else merged + [v],
                       if key(v) in held then held else held[key(v) := v],
                       if Clash(key, held, v) then errs + [v] else errs)
  {
    MergedSnoc(key, orig, done, v);
    ConflictsSnoc(key, orig, done, v);
    IndexSnoc(key, merged, v);
  }

  method IndexVolumes(volumes: seq<Volume>) returns (byName: map<string, Volume>)
    ensures byName == Index(VolumeName, volumes)
  {
    byName := map[];
    for i := 0 to |volumes|
      invariant byName == Index(VolumeName, volumes[..i])
    {
      IndexStep(VolumeName, volumes, i);
      byName := byName[volumes[i].name := volumes[i]];
    }
    TakeAll(volumes);
  }

  method MergeVolumes(volumes: seq<Volume>, podPresets: seq<PodPresetVar>, ghost presets: seq<PodPreset>)
    returns (r: Result<seq<Volume>, seq<Volume>>)
    requires PointTo(podPresets, presets)
    ensures r == MergeResult(VolumeName, volumes, Pool(SpecVolumes, presets))
  {
    var origVolumes := IndexVolumes(volumes);
    var mergedVolumes := volumes;
    var errs: seq<Volume> := [];
    ghost var done: seq<Volume> := [];
    for i := 0 to |podPresets|
      invariant done == Pool(SpecVolumes, presets[..i])
      invariant MergeState(VolumeName, volumes, done, mergedVolumes, origVolumes, errs)
    {
      ghost var seen := done;
      var offered := podPresets[i].value.spec.volumes;
      for j := 0 to |offered|
        invariant done == seen + offered[..j]
        invariant MergeState(VolumeName, volumes, done, mergedVolumes, origVolumes, errs)
      {
        var v := offered[j];
        MergeStep(VolumeName, volumes, done, mergedVolumes, origVolumes, errs, v);
        TakeSnoc(seen, offered, j);
        done := done + [v];
        if v.name !in origVolumes {
          origVolumes := origVolumes[v.name := v];
          mergedVolumes := mergedVolumes + [v];
        } else if origVolumes[v.name] != v {
          errs := errs + [v];
        }
      }
      TakeAll(offered);
      PoolStep(SpecVolumes, presets, i);
    }
    TakeAll(presets);
    r := if errs != [] then Err(errs) else Ok(mergedVolumes);
  }

  method IndexEnv(envVars: seq<EnvVar>) returns (byName: map<string, EnvVar>)
    ensures byName == Index(EnvName, envVars)
  {
    byName := map[];
    for i := 0 to |envVars|
      invariant byName == Index(EnvName, envVars[..i])
    {
      IndexStep(EnvName, envVars, i);
      byName := byName[envVars[i].name := envVars[i]];
    }
    TakeAll(envVars);
  }

  method MergeEnv(envVars: seq<EnvVar>, podPresets: seq<PodPresetVar>, ghost presets: seq<PodPreset>)
    returns (r: Result<seq<EnvVar>, seq<EnvVar>>)
    requires PointTo(podPresets, presets)
    ensures r == MergeResult(EnvName, envVars, Pool(SpecEnv, presets))
  {
    var origEnv := IndexEnv(envVars);
    var mergedEnv := envVars;
    var errs: seq<EnvVar> := [];
    ghost var done: seq<EnvVar> := [];
    for i := 0 to |podPresets|
      invariant done == Pool(SpecEnv, presets[..i])
      invariant MergeState(EnvName, envVars, done, mergedEnv, origEnv, errs)
    {
      ghost var seen := done;
      var offered := podPresets[i].value.spec.env;
      for j := 0 to |offered|
        invariant done == seen + offered[..j]
        invariant MergeState(EnvName, envVars, done, mergedEnv, origEnv, errs)
      {
        var v := offered[j];
        MergeStep(EnvName, envVars, done, mergedEnv, origEnv, errs, v);
        TakeSnoc(seen, offered, j);
        done := done + [v];
        if v.name !in origEnv {
          origEnv := origEnv[v.name := v];
          mergedEnv := mergedEnv + [v];
        } else if origEnv[v.name] != v {
          errs := errs + [v];
        }
      }
      TakeAll(offered);
      PoolStep(SpecEnv, presets, i);
    }
    TakeAll(presets);
    r := if errs != [] then Err(errs) else Ok(mergedEnv);
  }

  method MergeEnvFrom(envSources: seq<EnvFromSource>, podPresets: seq<PodPresetVar>, ghost presets: seq<PodPreset>)
    returns (merged: seq<EnvFromSource>)
    requires PointTo(podPresets, presets)
    ensures merged == envSources + Pool(SpecEnvFrom, presets)
  {
    merged := envSources;
    for i := 0 to |podPresets|
      invariant merged == envSources + Pool(SpecEnvFrom, presets[..i])
    {
      ghost var seen := Pool(SpecEnvFrom, presets[..i]);
      var offered := podPresets[i].value.spec.envFrom;
      for j := 0 to |offered|
        invariant merged == envSources + (seen + offered[..j])
      {
        merged := merged + [offered[j]];
      }
      TakeAll(offered);
      PoolStep(SpecEnvFrom, presets, i);
    }
    TakeAll(presets);
  }

  // ---------- volume mounts: two maps ----------

  /** Mounts are compatible when they are so by name and by path. */
  ghost predicate MountsCompatible(orig: seq<VolumeMount>, items: seq<VolumeMount>)
  {
    Compatible(MountName, orig, items) && Compatible(MountPath, orig, items)
  }

  /** The reported mounts, in order: one that clashes by name and by path is reported
      twice. */
  function MountConflicts(orig: seq<VolumeMount>, items: seq<VolumeMount>): seq<VolumeMount>
  {
    if items == [] then []
    else
      var rest := items[..|items| - 1];
      var v := items[|items| - 1];
      var errs := MountConflicts(orig, rest);
      var nameErrs := if Clash(MountName, Index(MountName, Merged(MountName, orig, rest)), v) then errs + [v] else errs;
      if Clash(MountPath, Index(MountPath, Merged(MountPath, orig, rest)), v) then nameErrs + [v] else nameErrs
  }

  function MountResult(orig: seq<VolumeMount>, items: seq<VolumeMount>): Result<seq<VolumeMount>, seq<VolumeMount>>
  {
    var errs := MountConflicts(orig, items);
    if errs == [] then Ok(Merged(MountName, orig, items)) else Err(errs)
  }

  lemma {:induction false} MountConflictFree(orig: seq<VolumeMount>, items: seq<VolumeMount>)
    ensures MountConflicts(orig, items) == []
            <==> Conflicts(MountName, orig, items) == [] && Conflicts(MountPath, orig, items) == []
    ensures MountConflicts(orig, items) == [] <==> MountsCompatible(orig, items)
  {
    ConflictFree(MountName, orig, items);
    ConflictFree(MountPath, orig, items);
    if items != [] {
      MountConflictFree(orig, items[..|items| - 1]);
    }
  }

  method IndexMounts(mounts: seq<VolumeMount>)
    returns (byName: map<string, VolumeMount>, byPath: map<string, VolumeMount>)
    ensures byName == Index(MountName, mounts)
    ensures byPath == Index(MountPath, mounts)
  {
    byName, byPath := map[], map[];
    for i := 0 to |mounts|
      invariant byName == Index(MountName, mounts[..i])
      invariant byPath == Index(MountPath, mounts[..i])
    {
      IndexStep(MountName, mounts, i);
      IndexStep(MountPath, mounts, i);
      byName := byName[mounts[i].name := mounts[i]];
      byPath := byPath[mounts[i].mountPath := mounts[i]];
    }
    TakeAll(mounts);
  }

  /** While nothing has conflicted, the list merged by name is the list merged by
      path, so both maps describe the same list. */
  lemma {:induction false} IndexesAgree(orig: seq<VolumeMount>, items: seq<VolumeMount>)
    requires Conflicts(MountName, orig, items) == [] && Conflicts(MountPath, orig, items) == []
    ensures Merged(MountName, orig, items) == Merged(MountPath, orig, items)
  {
    if items != [] {
      var rest, v := items[..|items| - 1], items[|items| - 1];
      IndexesAgree(orig, rest);
      var m := Merged(MountName, orig, rest);
      if v.name in Index(MountName, m) {
        Indexed(MountPath, m, v);
      } else if v.mountPath in Index(MountPath, m) {
        Indexed(MountName, m, v);
      }
    }
  }

  /** What the loop over mounts keeps: each map follows its own key, conflicts or not. */
  ghost predicate MountState(orig: seq<VolumeMount>, done: seq<VolumeMount>, merged: seq<VolumeMount>,
                             byName: map<string, VolumeMount>, byPath: map<string, VolumeMount>, errs: seq<VolumeMount>)
  {
    && merged == Merged(MountName, orig, done)
    && byName == Index(MountName, merged)
    && byPath == Index(MountPath, Merged(MountPath, orig, done))
    && errs == MountConflicts(orig, done)
  }

  lemma MountStep(orig: seq<VolumeMount>, done: seq<VolumeMount>, merged: seq<VolumeMount>,
                  byName: map<string, VolumeMount>, byPath: map<string, VolumeMount>, errs: seq<VolumeMount>, v: VolumeMount)
    requires MountState(orig, done, merged, byName, byPath, errs)
    ensures MountState(
              orig, done + [v],
              if v.name in byName then merged else merged + [v],
              if v.name in byName then byName else byName[v.name := v],
              if v.mountPath in byPath then byPath else byPath[v.mountPath := v],
              var nameErrs := if Clash(MountName, byName, v) then errs + [v] else errs;
              if Clash(MountPath, byPath, v) then nameErrs + [v] else nameErrs)
  {
    var mergedByPath := Merged(MountPath, orig, done);
    var nameErrs, pathErrs := Conflicts(MountName, orig, done), Conflicts(MountPath, orig, done);
    MergeStep(MountName, orig, done, merged, byName, nameErrs, v);
    MergeStep(MountPath, orig, done, mergedByPath, byPath, pathErrs, v);
    Snoc(done, v);
  }

  method MergeVolumeMounts(volumeMounts: seq<VolumeMount>, podPresets: seq<PodPresetVar>, ghost presets: seq<PodPreset>)
    returns (r: Result<seq<VolumeMount>, seq<VolumeMount>>)
    requires PointTo(podPresets, presets)
    ensures r == MountResult(volumeMounts, Pool(SpecMounts, presets))
  {
    var origVolumeMounts, volumeMountsByPath := IndexMounts(volumeMounts);
    var merged := volumeMounts;
    var errs: seq<VolumeMount> := [];
    ghost var done: seq<VolumeMount> := [];
    for i := 0 to |podPresets|
      invariant done == Pool(SpecMounts, presets[..i])
      invariant MountState(volumeMounts, done, merged, origVolumeMounts, volumeMountsByPath, errs)
    {
      ghost var seen := done;
      var offered := podPresets[i].value.spec.volumeMounts;
      for j := 0 to |offered|
        invariant done == seen + offered[..j]
        invariant MountState(volumeMounts, done, merged, origVolumeMounts, volumeMountsByPath, errs)
      {
        var v := offered[j];
        MountStep(volumeMounts, done, merged, origVolumeMounts, volumeMountsByPath, errs, v);
        TakeSnoc(seen, offered, j);
        done := done + [v];
        if v.name !in origVolumeMounts {
          origVolumeMounts := origVolumeMounts[v.name := v];
          merged := merged + [v];
        } else if origVolumeMounts[v.name] != v {
          errs := errs + [v];
        }
        if v.mountPath !in volumeMountsByPath {
          volumeMountsByPath := volumeMountsByPath[v.mountPath := v];
        } else if volumeMountsByPath[v.mountPath] != v {
          errs := errs + [v];
        }
      }
      TakeAll(offered);
      PoolStep(SpecMounts, presets, i);
    }
    TakeAll(presets);
    r := if errs != [] then Err(errs) else Ok(merged);
  }

  lemma AgreeingKeys(merged: seq<VolumeMount>, v: VolumeMount)
    ensures Index(MountName, merged).Keys == KeySet(MountName, merged)
    ensures Index(MountPath, merged).Keys == KeySet(MountPath, merged)
    ensures v in merged ==> MountName(v) in Index(MountName, merged) && MountPath(v) in Index(MountPath, merged)
  {
    IndexKeys(MountName, merged);
    IndexKeys(MountPath, merged);
    if v in merged {
      Indexed(MountName, merged, v);
      Indexed(MountPath, merged, v);
    }
  }

  /** Two-index agreement, for whatever the loop has reached without a conflict: the
      maps cover exactly the names and the paths of the list built so far, and the next
      mount never meets a known name with an unknown path. */
  lemma TwoIndexAgreement(orig: seq<VolumeMount>, done: seq<VolumeMount>, merged: seq<VolumeMount>,
                          byName: map<string, VolumeMount>, byPath: map<string, VolumeMount>, v: VolumeMount)
    requires MountState(orig, done, merged, byName, byPath, [])
    ensures byPath == Index(MountPath, merged)
    ensures byName.Keys == KeySet(MountName, merged)
    ensures byPath.Keys == KeySet(MountPath, merged)
    ensures v.name in byName && byName[v.name] == v ==> v.mountPath in byPath
    ensures v.mountPath in byPath && byPath[v.mountPath] == v ==> v.name in byName
  {
    MountConflictFree(orig, done);
    IndexesAgree(orig, done);
    AgreeingKeys(merged, v);
  }

  /** Every injected mount has a fresh name and a fresh path. */
  lemma InjectedMountsAreFresh(orig: seq<VolumeMount>, items: seq<VolumeMount>)
    requires MountsCompatible(orig, items)
    ensures var m := Merged(MountName, orig, items);
            && FreshFrom(MountName, m, |orig|)
            && FreshFrom(MountPath, m, |orig|)
            && (DistinctKeys(MountName, orig) ==> DistinctKeys(MountName, m))
            && (DistinctKeys(MountPath, orig) ==> DistinctKeys(MountPath, m))
  {
    ConflictFree(MountName, orig, items);
    ConflictFree(MountPath, orig, items);
    IndexesAgree(orig, items);
    InjectedKeysAreFresh(MountName, orig, items);
    InjectedKeysAreFresh(MountPath, orig, items);
    if DistinctKeys(MountName, orig) { DistinctKeysKept(MountName, orig, items); }
    if DistinctKeys(MountPath, orig) { DistinctKeysKept(MountPath, orig, items); }
  }

  /** Merging mounts in two batches is merging them at once, verdict and list. */
  lemma MountBatch(orig: seq<VolumeMount>, a: seq<VolumeMount>, b: seq<VolumeMount>)
    ensures MountsCompatible(orig, a + b)
            <==> MountsCompatible(orig, a) && MountsCompatible(Merged(MountName, orig, a), b)
    ensures Merged(MountName, orig, a + b) == Merged(MountName, Merged(MountName, orig, a), b)
  {
    CompatibleBatch(MountName, orig, a, b);
    CompatibleBatch(MountPath, orig, a, b);
    MergedBatch(MountName, orig, a, b);
    if MountsCompatible(orig, a) {
      ConflictFree(MountName, orig, a);
      ConflictFree(MountPath, orig, a);
      IndexesAgree(orig, a);
    }
  }
}
