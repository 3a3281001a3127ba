# Verified model of the common service webhook

A Dafny 4.11 model of the three parts of the webhook in which state and order matter,
with the properties that whole runs of them have.

* **Pod presets.** Presets are selected for a pod, checked for conflicts with the pod and
  with each other, and applied in place: volumes, environment variables, volume mounts,
  environment sources, one DNS option, annotations. The apply phase throws merge errors
  away, so it rests on the check having been made on the same inputs. A pod passes through
  the webhook on creation and on every update.
* **The namespace map.** One handler accepts or denies the document; another redirects the
  registry namespaces of operand requests by its first matching mapping.
* **Webhook configurations.** A level-triggered reconciliation of a service, a config map
  and any number of webhook configurations, in which every API call may fail.

`dafny verify dfyconfig.toml` checks all of it.

## Layout

| file | content |
|---|---|
| `Results.dfy`, `Pooling.dfy` | optional values and outcomes; pooling the items of a list of presets or mappings |
| `KeyedMerge.dfy` | the theory of a merge with one entry per key, without any lookup map |
| `PodTypes.dfy` | pods, containers, presets; values as datatypes, what is updated in place or reached by pointer as classes |
| `PodMerge.dfy` | the four merge loops with their real maps, proved against that theory; the two maps for mounts |
| `PodMutation.dfy` | selection, check, application, one admission |
| `PodTheorems.dfy` | check-then-apply, any run of admissions, batches of presets |
| `PodReadmission.dfy` | any number of admissions under one preset list, the selection as written |
| `MergeLaws.dfy`, `PodLaws.dfy` | merges and admissions spelled out: which items, and what every field becomes |
| `PodOrder.dfy` | the order of presets, as handed to the check and as listed |
| `NamespaceMap.dfy` | validator and rewriter, and what acceptance means for rewriting |
| `NamespaceLaws.dfy` | acceptance and denial spelled out |
| `WebhookCluster.dfy` | the API server: stored objects by key, a fault choice at each call |
| `WebhookReconcile.dfy` | composite reconcilers, registrations, the service, a run |
| `WebhookConvergence.dfy` | prefixes, histories, convergence, runs that only read |
| `WebhookLaws.dfy` | runs spelled out: every stored field, the order of steps, where a failing run stops |

## What is found

* A volume mount merge is two independent merges, by name and by path; as long as nothing
  conflicts they build the same list, so both maps describe it.
* `ApplyPodPresetsOnPod` returns, as a ghost, the number of merge errors it discards. It is
  zero exactly when the check would have passed on the pod as it was before the first
  write.
* Every run of admissions, whatever each of them lists and however it ends, is one checked
  application of presets listed on the way.
* Re-admission is not idempotent in one place: the sources of environment variables are
  appended again each time. For a pod that takes its presets it is idempotent exactly when
  the pod has no containers or the last listed preset carries no such sources; a pod for
  which it is not is given.
* The selection takes the address of a loop variable, and the module is built for Go 1.19
  (`go.mod:3`), where all iterations share it. Every selected pointer therefore stands for
  the last listed preset, whether or not that preset matches or is even in the namespace.
  The documentation (`docs/ibm-common-service-webhook.md:9-20`) describes the intended
  selection; the model follows the code, states the intended selection beside it, and
  proves when they agree. The merge and apply results hold for an arbitrary list of presets.
  The order in which presets are listed therefore matters, unless nothing matches or all of
  them are equal; under the intended selection it would only permute what is injected.
* Accepting a namespace map does not make redirection independent of the order of the
  mappings: for a namespace that is the target of one mapping and requested from by
  another the order decides, and for no other namespace.
* Deleting a service that is not headless is what lets the reconciliation converge: the
  server will not change a stored cluster IP, and the code never asks it to.
* A repeated run of the reconciliation writes nothing exactly when registrations of one key
  ask for one entry. Otherwise such a key is rewritten on every run, although what is stored
  in the end is the same.

The methods are proved against specification functions, and most theorems speak of those. The
`...Laws` modules pin these functions down: they say what an admission, an application, a
verdict or a run comes to in terms of the inputs and the literal constants alone.

## Conventions

Deep equality is `==`; nil and empty slices are one sequence; an aggregate of errors is nil
exactly when its list is empty. Lists of a pod may repeat names: its lookup maps keep the
last entry. Ghost parameters named `presets` give the values a list of pointers stands for.
`CreateOrUpdate` and `EnsureOwner` are library functions that are not part of this model;
they are represented by what they are documented to do: read, change, write back only if
changed, and add an owner once. The annotation keys that mark mirror pods and opted-out
pods are the Kubernetes API constants.

## Model

| member | source | states |
|---|---|---|
| Pooling.PoolConcat | pkg/controller/podpreset/handler.go:240-241 | the items offered by `a + b` are those offered by `a` followed by those offered by `b` |
| KeyedMerge.IndexIsLast | pkg/controller/podpreset/handler.go:230-233 | a lookup map holds, for each key, the entry at its last position in the list |
| KeyedMerge.MergedIsFirstOccurrences | pkg/controller/podpreset/handler.go:240-255 | the merged list is the original followed by the first occurrence of each fresh key, in the order offered, for every prefix of the items |
| KeyedMerge.ConflictFree | pkg/controller/podpreset/handler.go:240-260 | no conflict is reported iff every item equals the original list's last entry of its key and items that share a key are equal, although the loop carries on after conflicts |
| KeyedMerge.FirstItemHolds | pkg/controller/podpreset/handler.go:242-247 | among injected entries the first with a key keeps it in the map, whatever follows |
| KeyedMerge.CompatibleBatch | pkg/controller/podpreset/handler.go:229-267 | merging `a + b` succeeds iff merging `a` succeeds and then merging the result with `b` does |
| KeyedMerge.MergedBatch | pkg/controller/podpreset/handler.go:229-267 | and the two lists are identical |
| KeyedMerge.MergeTwice | pkg/controller/podpreset/handler.go:229-267 | merging the same items again adds nothing and raises no conflict |
| KeyedMerge.OrderIndependent | pkg/controller/podpreset/handler.go:240-255 | permuting the items changes neither the verdict nor, on success, more than the order of the injected suffix |
| KeyedMerge.DistinctKeysKept | pkg/controller/podpreset/handler.go:240-255 | keys distinct before a merge are distinct after it |
| PodMerge.IndexVolumes | pkg/controller/podpreset/handler.go:230-233 | the loop builds the last-wins map of the pod's volumes |
| PodMerge.MergeVolumes | pkg/controller/podpreset/handler.go:229-267 | the loops with their carried map return the theory's merged list, or the exact list of conflicting items |
| PodMerge.IndexEnv | pkg/controller/podpreset/handler.go:288-291 | the loop builds the last-wins map of a container's environment |
| PodMerge.MergeEnv | pkg/controller/podpreset/handler.go:287-322 | as for volumes, for environment variables |
| PodMerge.MergeEnvFrom | pkg/controller/podpreset/handler.go:324-340 | the sources are the container's followed by all the presets', in order |
| PodMerge.IndexMounts | pkg/controller/podpreset/handler.go:346-351 | the loop builds both last-wins maps |
| PodMerge.MountStep | pkg/controller/podpreset/handler.go:360-382 | one round keeps the list by name, the map by path and the conflicts in step, whether or not it conflicts |
| PodMerge.MergeVolumeMounts | pkg/controller/podpreset/handler.go:344-392 | the loops return the list merged by name, or the exact conflicts by name and by path |
| PodMerge.MountConflictFree | pkg/controller/podpreset/handler.go:358-389 | the mount merge succeeds iff the mounts are compatible by name and by path, last entries and mutual equality included |
| PodMerge.IndexesAgree | pkg/controller/podpreset/handler.go:360-382 | without a conflict the list merged by name is the list merged by path |
| PodMerge.TwoIndexAgreement | pkg/controller/podpreset/handler.go:346-384 | at every point reached without conflict both maps cover exactly the names and paths of the list, and a known name never meets an unknown path nor the reverse |
| PodMerge.InjectedMountsAreFresh | pkg/controller/podpreset/handler.go:358-384 | every injected mount has a fresh name and a fresh path; distinct names or paths stay distinct |
| PodMerge.MountBatch | pkg/controller/podpreset/handler.go:344-392 | batch equals incremental for mounts, verdict and list |
| MergeLaws.FirstOccurrencesAt | pkg/controller/podpreset/handler.go:240-255 | what a merge appends stands at exactly the positions whose key neither the original list nor an earlier item has, in order |
| MergeLaws.ConflictsAt | pkg/controller/podpreset/handler.go:240-260 | what a merge reports stands at exactly the positions whose item differs from the original list's last entry of its key or, failing that, from the first item offered with it, in order |
| MergeLaws.MountConflictsSplit | pkg/controller/podpreset/handler.go:360-382 | a mount is reported once for each of name and path under which it is refused |
| PodMutation.FilterPodPresets | pkg/controller/podpreset/handler.go:183-207 | fails iff some preset of the namespace has an ill-formed selector; otherwise one pointer for every listed preset that is in the namespace and whose selector matches, none iff there is none; all are the same pointer, to the last listed preset |
| PodMutation.SafeToApplyPodPresetsOnContainer | pkg/controller/podpreset/handler.go:271-283 | passes iff both container merges succeed |
| PodMutation.SafeToApplyPodPresetsOnPod | pkg/controller/podpreset/handler.go:211-225 | passes iff the volume merge and every container's merges succeed |
| PodMutation.ApplyPodPresetsOnContainer | pkg/controller/podpreset/handler.go:171-180 | the container afterwards, for checked and unchecked presets; no error is discarded iff the container was safe |
| PodMutation.ApplyDNS | pkg/controller/podpreset/handler.go:135-151 | under any other policy than ClusterFirst nothing changes; under it the options are the old ones, followed by the one option unless they hold it, in a new configuration if there was none, with the rest kept |
| PodMutation.ApplyOnElement | pkg/controller/podpreset/handler.go:153-156 | one element is copied out, changed through its address and written back; all others stay |
| PodMutation.ApplyOnContainers | pkg/controller/podpreset/handler.go:153-156 | the array afterwards holds each container changed as from its original value |
| PodMutation.Annotate | pkg/controller/podpreset/handler.go:159-165 | one reserved annotation per preset, the last one of a name winning |
| PodMutation.InjectIntoSpec | pkg/controller/podpreset/handler.go:132-151 | volumes and DNS options afterwards, and whether the volume merge error was discarded |
| PodMutation.Inject | pkg/controller/podpreset/handler.go:132-165 | the four steps together, field by field, nothing else written |
| PodMutation.ApplyPodPresetsOnPod | pkg/controller/podpreset/handler.go:127-166 | the whole pod afterwards; no merge error is discarded iff the check passes on the pod as it was |
| PodMutation.MutatePod | pkg/controller/podpreset/handler.go:73-122 | the answer and the pod after one admission, over exemption, listing and selector failure, no match, conflict and application; PodLaws spells out when each happens and what it leaves |
| PodTheorems.SafeMeaning | pkg/controller/podpreset/handler.go:211-225 | the check passes iff every injected item agrees with the pod's last entry of its key and with every other injected item of its key |
| PodTheorems.CheckedApplication | pkg/controller/podpreset/handler.go:124-166 | a checked application adds to the volumes, environment and mounts exactly the first occurrence of each fresh key, in order, and all environment sources; a ClusterFirst pod gets the DNS option |
| PodTheorems.ApplicationExtends | pkg/controller/podpreset/handler.go:127-166 | every original list is a prefix of its new list and nothing outside the injected fields changes |
| PodTheorems.PresetIsRecorded | pkg/controller/podpreset/handler.go:163-165 | each preset's version ends up under its own reserved key, the last preset of a name winning |
| PodTheorems.UncheckedApplicationLoses | pkg/controller/podpreset/handler.go:132-133 | applying without the check loses an original volume iff there is one and some injected volume conflicts |
| PodTheorems.ExemptionIsStable | pkg/controller/podpreset/handler.go:75-85 | a mutation can neither exempt a pod nor lift its exemption |
| PodTheorems.AdmissionExtends | pkg/controller/podpreset/handler.go:73-122 | an admission only extends the pod, whatever it lists and however it ends |
| PodTheorems.RunIsOneApplication | pkg/controller/podpreset/handler.go:73-122 | every run of admissions with changing presets, namespaces and failures is one checked application of presets listed on the way |
| PodTheorems.RunExtends | pkg/controller/podpreset/handler.go:73-122 | over every run the pod is only extended, and its exemption is constant |
| PodTheorems.RunKeepsDistinct | pkg/controller/podpreset/handler.go:73-122 | over every run, names and mount paths that were distinct stay distinct |
| PodTheorems.PresetBatch | pkg/controller/podpreset/handler.go:127-225 | checking and applying `a + b` is checking and applying `a`, then `b` on the result, for the whole pod |
| PodReadmission.ApplyAgain | pkg/controller/podpreset/handler.go:127-180 | after a checked application the check still passes, and one more application only appends the environment sources once more |
| PodReadmission.IdempotentIff | pkg/controller/podpreset/handler.go:324-340 | a second application changes nothing iff there are no containers or no environment sources |
| PodReadmission.ReadmissionSettles | pkg/controller/podpreset/handler.go:73-122 | after any n admissions the pod is as after the first but for n copies of the sources; eligibility stays; a pod not taken is never changed |
| PodReadmission.ReadmissionIdempotentIff | pkg/controller/podpreset/handler.go:73-122 | for a pod that takes its presets, admission n ≥ 2 leaves what the first left iff there are no containers or the last listed preset has no environment sources |
| PodReadmission.SecondAdmissionAppends | pkg/controller/podpreset/handler.go:178-179 | a concrete pod and preset for which the second admission differs from the first |
| PodReadmission.SelectionAgreesIff | pkg/controller/podpreset/handler.go:186-206 | the selection as written is the intended one iff every matching preset equals the last listed one |
| PodReadmission.ForeignPresetSelected | pkg/controller/podpreset/handler.go:186-206 | a concrete list for which a preset of another namespace is selected instead of the matching one |
| PodReadmission.CopiesCollapse | pkg/controller/podpreset/handler.go:127-180 | applying k pointers to one preset is applying that preset k times |
| PodReadmission.ReadmissionAsWritten | pkg/controller/podpreset/handler.go:73-122 | n admissions apply the last listed preset once per intended match and admission |
| PodOrder.ReorderedPresets | pkg/controller/podpreset/handler.go:240-241 | permuted presets offer the same items |
| PodOrder.ReorderedItems | pkg/controller/podpreset/handler.go:240-241 | presets with permuted items offer the same items |
| PodOrder.PresetOrder | pkg/controller/podpreset/handler.go:127-225 | presets offering the same items give the same verdict, and on success the injected suffixes are permutations |
| PodOrder.IntendedReordered | pkg/controller/podpreset/handler.go:182-207 | permuting the listed presets permutes the intended selection, which offers the same items |
| PodOrder.SelectionOrderFreeIff | pkg/controller/podpreset/handler.go:186-206 | the selection as written is the same for every order of the listed presets iff nothing matches or all listed presets are equal |
| PodOrder.AdmissionReordered | pkg/controller/podpreset/handler.go:73-122 | then the whole admission, answer and pod, is the same for every order |
| PodOrder.ListedOrderMatters | pkg/controller/podpreset/handler.go:186-206 | a concrete pod and two presets for which the listed order decides what is injected |
| PodMutation.IntendedMembers | pkg/controller/podpreset/handler.go:182-207 | a preset is in the intended selection iff it is listed, in the namespace, and its selector matches |
| PodLaws.IntendedInOrder | pkg/controller/podpreset/handler.go:186-206 | the intended selection is what stands at the matching positions of the list, in list order |
| PodLaws.SafetySpelledOut | pkg/controller/podpreset/handler.go:211-284 | the check passes iff volumes by name, environment by name, and mounts by name and by path agree with the last own entry and with each other, in every container |
| PodLaws.ApplicationSpelledOut | pkg/controller/podpreset/handler.go:127-180 | every field of the pod and of each container after a checked application, from the fields before and what the presets list |
| PodLaws.DNSSpelledOut | pkg/controller/podpreset/handler.go:135-151 | the DNS configuration after an application: untouched under another policy or without presets, otherwise with the one option at its end unless it had it |
| PodLaws.AnnotationsSpelledOut | pkg/controller/podpreset/handler.go:159-165 | under the key of each preset its version, the last of a name winning; every other annotation as it was |
| PodLaws.ExemptAdmission | pkg/controller/podpreset/handler.go:75-85 | a pod with the mirror key, or with "true" under the opt-out key, is answered without error and left alone, before anything is listed |
| PodLaws.ExemptRun | pkg/controller/podpreset/handler.go:75-85 | and so over every run |
| PodLaws.AdmissionSpelledOut | pkg/controller/podpreset/handler.go:73-122 | any other pod: the error of a failed listing, or of an ill-formed selector in the namespace; no change without a match or with a conflict; otherwise the application of as many copies of the last listed preset as there are matches |
| PodLaws.ChangedOnlyIfMatched | pkg/controller/podpreset/handler.go:95-97 | an admission changes a pod only if some listed preset of its namespace matches it |
| PodLaws.RunKeepsOtherDNS | pkg/controller/podpreset/handler.go:135-151 | over every run a pod that is not under ClusterFirst keeps its DNS configuration |
| PodLaws.TakesSpelledOut | pkg/controller/podpreset/handler.go:73-122 | when a pod takes its presets, in terms of its annotations, the selectors and the last listed preset |
| NamespaceMap.Validate | pkg/controller/nsmappingconfigmap/handler.go:69-94 | accepts iff targets are pairwise distinct, requested-from entries are distinct across all mappings, and the control namespace is none of them; a denial names the first violation met when reading mapping by mapping, target before entries |
| NamespaceMap.VerdictAnyOrder | pkg/controller/nsmappingconfigmap/handler.go:69-94 | the verdict depends only on which targets and entries occur how often |
| NamespaceMap.MappingsReordered | pkg/controller/nsmappingconfigmap/handler.go:72-91 | permuting the mappings keeps those counts |
| NamespaceMap.EntriesReordered | pkg/controller/nsmappingconfigmap/handler.go:82-90 | permuting the entries within mappings keeps those counts |
| NamespaceMap.FindNamespace | pkg/controller/operandrequest/handler.go:123-130 | true iff the name is in the list |
| NamespaceMap.RedirectAll | pkg/controller/operandrequest/handler.go:110-115 | exactly the requests in the default namespace are redirected, in place |
| NamespaceMap.MutateRequest | pkg/controller/operandrequest/handler.go:81-121 | if a mapping covers the namespace, as target or by request, and none before it does, exactly the requests in the default namespace get its target, the default spelled out; otherwise all stay; an absent map is no error, an unreadable one is |
| NamespaceMap.TwoCoversSplit | pkg/controller/nsmappingconfigmap/handler.go:77-89 | under an accepted map two mappings cover a namespace only if one does so as target and the other by request |
| NamespaceMap.AtMostTwoCover | pkg/controller/nsmappingconfigmap/handler.go:72-91 | no three mappings of an accepted map cover one namespace |
| NamespaceMap.OrderFreeIff | pkg/controller/operandrequest/handler.go:108-118 | under an accepted map no permutation of the mappings changes any rewrite for a namespace iff it is not the target of one mapping and requested from by another |
| NamespaceMap.AcceptedYetCrossed | pkg/controller/nsmappingconfigmap/handler.go:72-91 | a concrete accepted map whose order matters |
| NamespaceMap.ControlIsIsolated | pkg/controller/nsmappingconfigmap/handler.go:74-85 | under an accepted map requests in the control namespace are never altered and none is redirected into it |
| NamespaceMap.ChangesAtMostOnce | pkg/controller/operandrequest/handler.go:101-118 | over every run, maps found, absent or unreadable, with one effective default among those found, a request changes at most once, and only away from the default |
| NamespaceMap.RewriteTwice | pkg/controller/operandrequest/handler.go:108-118 | a second rewrite under the same map does nothing |
| NamespaceMap.RunKeepsControlIsolated | pkg/controller/operandrequest/handler.go:101-118 | control-namespace isolation over every run in which each map that is found was accepted; absent and unreadable maps may occur |
| NamespaceMap.AdmissionSpelledOut | pkg/controller/operandrequest/handler.go:81-121 | the requests after an admission, as for MutateRequest, for the function the laws of runs are about |
| NamespaceLaws.AcceptedSpelledOut | pkg/controller/nsmappingconfigmap/handler.go:69-94 | acceptance in terms of the mappings alone: targets differ pairwise, no entry twice within a mapping or across two, the control namespace nowhere |
| NamespaceLaws.OneReason | pkg/controller/nsmappingconfigmap/handler.go:72-91 | a document has at most one first violation, so a denial and its reason are fully determined |
| WebhookReconcile.ReconcileConfig | pkg/webhooks/reconciler.go:96-221 | read, overwrite the webhooks, write back unless unchanged, fail as the calls fail; the stored fields are spelled out in WebhookLaws.ConfigurationSpelledOut |
| WebhookReconcile.Set | pkg/webhooks/reconciler.go:45-67 | each of the four setters reaches every leaf of a nested reconciler and changes nothing else in it |
| WebhookReconcile.ReconcileAll | pkg/webhooks/reconciler.go:69-77 | a run over nested reconcilers is the run over their flattened leaves, with the same early stop |
| WebhookReconcile.GetPaths | pkg/webhooks/webhook_register.go:105-124 | fails iff the object has no kind; a path is set iff the interface is implemented |
| WebhookReconcile.GetReconciler | pkg/webhooks/webhook_register.go:78-178 | fresh leaves serving exactly the endpoints of the registration, mutating before validating; fails iff the registration is invalid |
| WebhookReconcile.ReconcileWebhook | pkg/webhooks/operator_webhooks.go:184-198 | one registered webhook, configured and run leaf by leaf |
| WebhookReconcile.CreateService | pkg/webhooks/operator_webhooks.go:230-266 | create or update the service to the desired state |
| WebhookReconcile.ReconcileService | pkg/webhooks/operator_webhooks.go:204-228 | delete a service that is not headless, then create or update |
| WebhookReconcile.CSWebhookConfig.Reconcile | pkg/webhooks/operator_webhooks.go:148-201 | service, config map, CA bundle, then the planned leaves of all registrations, stopping at the first error |
| WebhookConvergence.LastRegistrationWins | pkg/webhooks/operator_webhooks.go:184-198 | what is wanted under a key is the entry of its last registration |
| WebhookConvergence.OverlayMeaning | pkg/webhooks/reconciler.go:117-152 | storing leaves fixes the webhooks of their keys, keeps metadata, and leaves other configurations alone |
| WebhookConvergence.PutAllStoresPrefix | pkg/webhooks/reconciler.go:69-77 | a run over leaves has stored an initial segment of them; it succeeds iff none of its calls failed |
| WebhookConvergence.ServiceIsHeadless | pkg/webhooks/operator_webhooks.go:204-266 | on success the service is headless and as desired, whatever it was; failure is always a failed call, never a refused cluster IP, and leaves the service as it was or deleted |
| WebhookConvergence.FailedRunTouchesPrefix | pkg/webhooks/operator_webhooks.go:148-201 | wherever a run stops, the configurations are the old ones updated by an initial segment of the flattened registrations |
| WebhookConvergence.SuccessfulRun | pkg/webhooks/operator_webhooks.go:148-201 | everything a successful run leaves stored |
| WebhookConvergence.FaultFreeRunSucceeds | pkg/webhooks/operator_webhooks.go:148-201 | without faults, with valid registrations and a CA bundle, a run succeeds from any state |
| WebhookConvergence.SecondRunChangesNothing | pkg/webhooks/operator_webhooks.go:148-201 | another successful run with the same owner and bundle changes nothing stored |
| WebhookConvergence.HistoryFrame | pkg/webhooks/operator_webhooks.go:184-198 | no history touches an unregistered configuration or any metadata |
| WebhookConvergence.Converges | pkg/webhooks/operator_webhooks.go:148-201 | after any history of runs failing anywhere, one successful run leaves exactly what registrations, namespace and CA bundle determine, all other configurations as at the start, and a ready headless service whatever it was |
| WebhookConvergence.ConvergesWhenFaultsStop | pkg/webhooks/operator_webhooks.go:148-201 | and once faults stop, the next run does all of this |
| WebhookConvergence.ReadOnlyIff | pkg/webhooks/reconciler.go:117-152 | a successful run over leaves makes no call beyond one read for each iff every leaf is stored already |
| WebhookConvergence.SecondRunReadsOnlyIff | pkg/webhooks/operator_webhooks.go:148-201 | a second successful run writes nothing iff registrations of one key ask for one entry |
| WebhookConvergence.AddedRegistrationWins | pkg/webhooks/operator_webhooks.go:329-331 | a valid registration that is appended settles what is wanted under its keys, whatever was registered before |
| WebhookLaws.EndpointsSpelledOut | pkg/webhooks/webhook_register.go:78-178 | the kind and path of every endpoint of a registration, by its type or the interfaces of its object, mutating before validating; none iff it is invalid |
| WebhookLaws.CompleteSpelledOut | pkg/webhooks/webhook_register.go:78-178 | a plan is complete iff every registration is of a known type or has a kind in the scheme |
| WebhookLaws.ConfigurationSpelledOut | pkg/webhooks/reconciler.go:96-221 | after any history and one successful run, every field of the one entry stored for a registration that no later one overrides: names, rule, selector, CA bundle, service reference, constants, Ignore for mutating and Fail for validating; the metadata as at the start |
| WebhookLaws.UnregisteredSpelledOut | pkg/webhooks/operator_webhooks.go:184-198 | a configuration whose kind and name no registration asks for is the same after every history |
| WebhookLaws.ServiceSpelledOut | pkg/webhooks/operator_webhooks.go:204-266 | every field of the service after a successful run, kept from a headless one or made anew; no other service is touched |
| WebhookLaws.ConfigMapSpelledOut | pkg/webhooks/operator_webhooks.go:155-175 | the config map after a successful run: the one there was, or one annotated for CA injection; no other is touched |
| WebhookLaws.SuccessSpelledOut | pkg/webhooks/operator_webhooks.go:148-201 | a run succeeds iff none of its calls failed, the CA bundle is there and every registration is valid; the first call that fails is its last |
| WebhookLaws.StepsInOrder | pkg/webhooks/operator_webhooks.go:148-201 | wherever a run stops: a configuration is written only with the CA bundle, service and config map in place, the config map only with the service in place |
| WebhookLaws.OldOrAskedFor | pkg/webhooks/operator_webhooks.go:184-198 | wherever a run stops, each configuration is as before or exactly as some registration of its kind and name asks, field by field |
| WebhookLaws.InvalidRegistrationStops | pkg/webhooks/operator_webhooks.go:184-189 | a run with an invalid registration fails and leaves what the registrations before it leave |
| WebhookLaws.LeavesSpelledOut | pkg/webhooks/reconciler.go:69-77 | which leaves a nested reconciler visits: grouping does not matter, order does |

## Left out

- Decoding of requests, the JSON patch, HTTP codes, logging and the text of errors: library code; the model starts from decoded values and keeps whether, and on which item, an error arose.
- The `Handle` wrappers and the name test that exempts other config maps from validation (pkg/controller/nsmappingconfigmap/handler.go:51-53).
- What a label selector means: an opaque total function from selector and labels to match, no match or ill-formed.
- The nil test on the selector's address (pkg/controller/podpreset/handler.go:190), which can never hold.
- Certificate files, polling for the CA and the clock: the CA bundle, or its absence, is an input of a run, and the polling reads are not counted as calls.
- Concurrent writers of the API server, resource versions and asynchronous deletion: a call succeeds or fails as a whole, and a failed call changes nothing.
- Defaulting of stored objects by the API server: what is stored is taken to be what was written, so a server that fills in fields would be written to again on each run.
- The namespace labels kept by pkg/controller/podpreset/podpreset_controller.go, and the wiring in cmd/manager.
- The rule builder (pkg/webhooks/rules.go) and the spelling of generated paths: a path is a prefix and a rendered kind.
- The two leaf reconciler types are one class with a kind, since they differ only in the kind they write and its failure policy; the four setters are one method over a choice of setting, since they walk the reconcilers in the same way.
- Set: does not model the setters as four methods, because they differ only in the field they assign.
- PresetOrder: says nothing of annotations and environment sources, because their outcome does depend on the order of presets.
