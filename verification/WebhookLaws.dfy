/** The reconciliation spelled out: what every field of the stored objects is after a run,
    and what a run that fails has done, in terms of the registrations alone. */
module WebhookLaws {
  import opened Results
  import opened WebhookCluster
  import opened WebhookReconcile
  import opened WebhookConvergence

  // ---------- registrations ----------

  /** The registration asks for a webhook of this kind, served under this path. */
  ghost predicate Asks(webhook: CSWebhook, kind: Kind, path: string)
  {
    match webhook.register
    case AdmissionRegister(hookType, p) =>
      path == p && hookType == (match kind case Mutating => "Mutating" case Validating => "Validating")
    case ObjectRegister(obj) =>
      && obj.gvk.Some?
      && match kind
         case Mutating => obj.isDefaulter && path == "/mutate-" + obj.gvk.value
         case Validating => obj.isValidator && path == "/validate-" + obj.gvk.value
  }

  lemma TypesDiffer()
    ensures "Mutating" != "Validating"
  {
    assert "Mutating"[0] != "Validating"[0];
  }

  lemma PathsSpelledOut(gvk: string)
    ensures GeneratePath("mutate", gvk) == "/mutate-" + gvk
    ensures GeneratePath("validate", gvk) == "/validate-" + gvk
  {
    assert "/" + "mutate" + "-" == "/mutate-";
    assert "/" + "validate" + "-" == "/validate-";
  }

  /** The endpoints of a registration: one of its type, or those of the interfaces of its
      object, mutating first. */
  lemma EndpointsSpelledOut(register: Register)
    ensures Endpoints(register)
            == match register
               case AdmissionRegister(hookType, path) =>
                 if hookType == "Mutating" then Some([Endpoint(Mutating, path)])
                 else if hookType == "Validating" then Some([Endpoint(Validating, path)])
                 else None
               case ObjectRegister(obj) =>
                 if obj.gvk.None? then None
                 else if obj.isDefaulter && obj.isValidator then
                   Some([Endpoint(Mutating, "/mutate-" + obj.gvk.value), Endpoint(Validating, "/validate-" + obj.gvk.value)])
                 else if obj.isDefaulter then Some([Endpoint(Mutating, "/mutate-" + obj.gvk.value)])
                 else if obj.isValidator then Some([Endpoint(Validating, "/validate-" + obj.gvk.value)])
                 else Some([])
  {
    TypesDiffer();
    if register.ObjectRegister? && register.obj.gvk.Some? {
      var gvk := register.obj.gvk.value;
      PathsSpelledOut(gvk);
      var m, v := Endpoint(Mutating, "/mutate-" + gvk), Endpoint(Validating, "/validate-" + gvk);
      assert Endpoints(register).value
             == if register.obj.isDefaulter && register.obj.isValidator then [m, v]
                else if register.obj.isDefaulter then [m] else if register.obj.isValidator then [v] else [];
    }
  }

  /** The plan is complete exactly when every registration is valid. */
  lemma {:induction false} CompleteSpelledOut(webhooks: seq<CSWebhook>)
    ensures PlanFor(webhooks).complete
            <==> forall w :: 0 <= w < |webhooks| ==>
                   match webhooks[w].register
                   case AdmissionRegister(hookType, _) => hookType == "Mutating" || hookType == "Validating"
                   case ObjectRegister(obj) => obj.gvk.Some?
  {
    if webhooks != [] {
      CompleteSpelledOut(webhooks[1..]);
      EndpointsSpelledOut(webhooks[0].register);
      assert forall w :: 0 < w < |webhooks| ==> webhooks[w] == webhooks[1..][w - 1];
    }
  }

  lemma AsksIff(webhook: CSWebhook, kind: Kind, path: string)
    ensures Asks(webhook, kind, path)
            <==> Endpoints(webhook.register).Some? && Endpoint(kind, path) in Endpoints(webhook.register).value
  {
    TypesDiffer();
    EndpointsSpelledOut(webhook.register);
  }

  /** No registration asks for a webhook of this kind and name. */
  ghost predicate NotAskedFor(webhooks: seq<CSWebhook>, kind: Kind, name: string)
  {
    forall w, path :: 0 <= w < |webhooks| && webhooks[w].name == name ==> !Asks(webhooks[w], kind, path)
  }

  lemma {:induction false} NoLeaf(webhooks: seq<CSWebhook>, kind: Kind, name: string)
    requires NotAskedFor(webhooks, kind, name)
    ensures forall leaf :: leaf in PlanFor(webhooks).leaves ==> leaf.Key() != ConfigKey(kind, name)
  {
    if webhooks != [] && Endpoints(webhooks[0].register).Some? {
      var endpoints, rest := Endpoints(webhooks[0].register).value, webhooks[1..];
      assert forall w :: 0 <= w < |rest| ==> rest[w] == webhooks[w + 1];
      NoLeaf(rest, kind, name);
      forall i | 0 <= i < |endpoints|
        ensures LeafFor(webhooks[0], endpoints[i]).Key() != ConfigKey(kind, name)
      {
        AsksIff(webhooks[0], endpoints[i].kind, endpoints[i].path);
      }
    }
  }

  /** The leaf at position `i` is the last one under its key. */
  ghost predicate IsLast(leaves: seq<Leaf>, i: nat)
  {
    i < |leaves| && forall j :: i < j < |leaves| ==> leaves[j].Key() != leaves[i].Key()
  }

  lemma LastInFront(a: seq<Leaf>, b: seq<Leaf>, i: nat)
    requires IsLast(a, i) && forall leaf :: leaf in b ==> leaf.Key() != a[i].Key()
    ensures IsLast(a + b, i) && (a + b)[i] == a[i]
  {
  }

  lemma LastInBack(a: seq<Leaf>, b: seq<Leaf>, i: nat)
    requires IsLast(b, i)
    ensures IsLast(a + b, |a| + i) && (a + b)[|a| + i] == b[i]
  {
  }

  lemma OwnLeaf(webhook: CSWebhook, kind: Kind, path: string) returns (i: nat)
    requires Asks(webhook, kind, path)
    ensures Endpoints(webhook.register).Some?
    ensures var leaves := LeavesFor(webhook, Endpoints(webhook.register).value);
            && IsLast(leaves, i)
            && leaves[i] == Leaf(kind, path, webhook.name, webhook.webhookName, webhook.rule, webhook.nsSelector)
  {
    AsksIff(webhook, kind, path);
    EndpointsSpelledOut(webhook.register);
    var endpoints := Endpoints(webhook.register).value;
    i :| i < |endpoints| && endpoints[i] == Endpoint(kind, path);
  }

  /** Where the last registration of a kind and name stands in the plan. */
  lemma {:induction false} LastLeaf(webhooks: seq<CSWebhook>, w: nat, kind: Kind, path: string) returns (i: nat)
    requires PlanFor(webhooks).complete && w < |webhooks| && Asks(webhooks[w], kind, path)
    requires NotAskedFor(webhooks[w + 1..], kind, webhooks[w].name)
    ensures var webhook, leaves := webhooks[w], PlanFor(webhooks).leaves;
            && IsLast(leaves, i)
            && leaves[i] == Leaf(kind, path, webhook.name, webhook.webhookName, webhook.rule, webhook.nsSelector)
  {
    var own := LeavesFor(webhooks[0], Endpoints(webhooks[0].register).value);
    var rest := PlanFor(webhooks[1..]).leaves;
    if w == 0 {
      i := OwnLeaf(webhooks[0], kind, path);
      NoLeaf(webhooks[1..], kind, webhooks[0].name);
      LastInFront(own, rest, i);
    } else {
      assert webhooks[1..][w..] == webhooks[w + 1..];
      var k := LastLeaf(webhooks[1..], w - 1, kind, path);
      LastInBack(own, rest, k);
      i := |own| + k;
    }
  }

  // ---------- webhook configurations ----------

  /** What a successful run leaves stored, after any history, for a registration that no
      later one of its kind and name overrides. */
  lemma ConfigurationSpelledOut(f: Faults, s: State, webhooks: seq<CSWebhook>, inputs: seq<Input>, last: Input,
                                namespace: string, w: nat, kind: Kind, path: string)
    requires Reconciled(f, History(f, s, webhooks, inputs, namespace), webhooks, last, namespace).ok
    requires w < |webhooks| && Asks(webhooks[w], kind, path)
    requires forall v, p :: w < v < |webhooks| && webhooks[v].name == webhooks[w].name ==> !Asks(webhooks[v], kind, p)
    ensures last.caBundle.Some?
    ensures var configs := Reconciled(f, History(f, s, webhooks, inputs, namespace), webhooks, last, namespace).state.configs;
            var key := ConfigKey(kind, webhooks[w].name);
            && key in configs && |configs[key].webhooks| == 1
            && configs[key].metadata == (if key in s.configs then s.configs[key].metadata else "")
            && var entry := configs[key].webhooks[0];
               && entry.name == webhooks[w].webhookName
               && entry.rules == [webhooks[w].rule]
               && entry.nsSelector == webhooks[w].nsSelector
               && entry.caBundle == last.caBundle.value
               && entry.service.namespace == namespace
               && entry.service.name == "ibm-common-service-webhook"
               && entry.service.path == path
               && entry.service.port == 443
               && entry.sideEffects == "None"
               && entry.matchPolicy == "Exact"
               && entry.reviewVersions == ["v1"]
               && entry.timeoutSeconds == 10
               && entry.failurePolicy == match kind case Mutating => "Ignore" case Validating => "Fail"
  {
    var before := History(f, s, webhooks, inputs, namespace);
    var leaves := PlanFor(webhooks).leaves;
    SuccessfulRun(f, before, webhooks, last, namespace);
    assert PlanFor(webhooks).complete;
    var i := LastLeaf(webhooks, w, kind, path);
    LastRegistrationWins(leaves, namespace, last.caBundle.value, i);
    Converges(f, s, webhooks, inputs, last, namespace);
    assert ConfigAsWanted(Reconciled(f, before, webhooks, last, namespace).state, s,
                          Wanted(leaves, namespace, last.caBundle.value), leaves[i].Key());
  }

  /** A configuration that no registration asks for is never touched, whatever fails. */
  lemma UnregisteredSpelledOut(f: Faults, s: State, webhooks: seq<CSWebhook>, inputs: seq<Input>, namespace: string,
                               kind: Kind, name: string)
    requires forall w, path :: 0 <= w < |webhooks| && webhooks[w].name == name ==> !Asks(webhooks[w], kind, path)
    ensures var key, now := ConfigKey(kind, name), History(f, s, webhooks, inputs, namespace);
            (key in now.configs <==> key in s.configs) && (key in s.configs ==> now.configs[key] == s.configs[key])
  {
    NoLeaf(webhooks, kind, name);
    HistoryFrame(f, s, webhooks, inputs, namespace, ConfigKey(kind, name));
  }

  // ---------- the service and the config map ----------

  /** The service after a successful run. One that is headless keeps what is not set, any
      other is made anew; no other service is touched. */
  lemma ServiceSpelledOut(f: Faults, s: State, webhooks: seq<CSWebhook>, input: Input, namespace: string)
    requires Reconciled(f, s, webhooks, input, namespace).ok
    ensures var services := Reconciled(f, s, webhooks, input, namespace).state.services;
            var key := ObjectKey(namespace, "ibm-common-service-webhook");
            var base := if key in s.services && s.services[key].clusterIP == "None" then s.services[key]
                        else Service({}, map[], "", map[], [], "");
            && key in services && services - {key} == s.services - {key}
            && services[key].clusterIP == "None"
            && services[key].selector == map["name" := "ibm-common-service-webhook"]
            && services[key].ports == [ServicePort("TCP", 443, 8443)]
            && services[key].annotations
               == base.annotations["service.beta.openshift.io/serving-cert-secret-name" := "cs-webhook-cert"]
            && services[key].owners == base.owners + (match input.owner case None => {} case Some(owner) => {owner})
            && services[key].rest == base.rest
  {
    SuccessfulRun(f, s, webhooks, input, namespace);
    ServiceIsHeadless(f, s, input.owner, namespace);
  }

  /** The config map after a successful run: the one there was, or one that asks for the CA
      to be injected; no other config map is touched. */
  lemma ConfigMapSpelledOut(f: Faults, s: State, webhooks: seq<CSWebhook>, input: Input, namespace: string)
    requires Reconciled(f, s, webhooks, input, namespace).ok
    ensures var key := ObjectKey(namespace, "ibm-cs-operator-webhook-ca");
            Reconciled(f, s, webhooks, input, namespace).state.configMaps
            == if key in s.configMaps then s.configMaps
               else s.configMaps[key := ConfigMap(map["service.beta.openshift.io/inject-cabundle" := "true"], "")]
  {
    SuccessfulRun(f, s, webhooks, input, namespace);
  }

  // ---------- runs that fail ----------

  /** All calls but the last have succeeded. */
  ghost predicate NoneButLast(f: Faults, from: nat, to: nat)
  {
    from <= to && forall t :: from <= t < to - 1 ==> !f(t)
  }

  lemma {:induction false} PutAllStops(f: Faults, s: State, leaves: seq<Leaf>, namespace: string, caBundle: Bytes)
    ensures NoneButLast(f, s.calls, PutAll(f, s, leaves, namespace, caBundle).state.calls)
    decreases |leaves|
  {
    if leaves != [] {
      var leaf := leaves[0];
      var first := PutConfig(f, s, leaf.Key(), Entry(leaf, namespace, caBundle));
      PutConfigEffect(f, s, leaf.Key(), Entry(leaf, namespace, caBundle));
      if first.ok {
        PutAllStops(f, first.state, leaves[1..], namespace, caBundle);
      }
    }
  }

  lemma PutServiceStops(f: Faults, s: State, owner: Option<string>, namespace: string)
    ensures NoneButLast(f, s.calls, PutService(f, s, owner, namespace).state.calls)
  {
  }

  lemma ServiceStops(f: Faults, s: State, owner: Option<string>, namespace: string)
    ensures NoneButLast(f, s.calls, ServiceStep(f, s, owner, namespace).state.calls)
  {
    var s1 := s.Tick();
    PutServiceStops(f, s1, owner, namespace);
    PutServiceStops(f, s1.Tick().(services := s.services - {ServiceKey(namespace)}), owner, namespace);
  }

  lemma RunStops(f: Faults, s: State, webhooks: seq<CSWebhook>, input: Input, namespace: string)
    ensures NoneButLast(f, s.calls, Reconciled(f, s, webhooks, input, namespace).state.calls)
  {
    ServiceIsHeadless(f, s, input.owner, namespace);
    ServiceStops(f, s, input.owner, namespace);
    var service := ServiceStep(f, s, input.owner, namespace);
    var configMap := ConfigMapStep(f, service.state, namespace);
    if service.ok && configMap.ok && input.caBundle.Some? {
      PutAllStops(f, configMap.state, PlanFor(webhooks).leaves, namespace, input.caBundle.value);
    }
  }

  lemma StepsClean(f: Faults, s: State, owner: Option<string>, namespace: string)
    ensures var service := ServiceStep(f, s, owner, namespace);
            var configMap := ConfigMapStep(f, service.state, namespace);
            && s.calls <= service.state.calls <= configMap.state.calls
            && (service.ok <==> Clean(f, s.calls, service.state.calls))
            && (configMap.ok <==> Clean(f, service.state.calls, configMap.state.calls))
  {
    ServiceIsHeadless(f, s, owner, namespace);
    var service := ServiceStep(f, s, owner, namespace);
    var configMap := ConfigMapStep(f, service.state, namespace);
    assert configMap.ok || f(service.state.calls);
  }

  lemma SucceedsIff(f: Faults, s: State, webhooks: seq<CSWebhook>, input: Input, namespace: string)
    ensures var r := Reconciled(f, s, webhooks, input, namespace);
            r.ok <==> Clean(f, s.calls, r.state.calls) && input.caBundle.Some? && PlanFor(webhooks).complete
  {
    StepsClean(f, s, input.owner, namespace);
    var service := ServiceStep(f, s, input.owner, namespace);
    var configMap := ConfigMapStep(f, service.state, namespace);
    var r := Reconciled(f, s, webhooks, input, namespace);
    CleanJoin(f, s.calls, service.state.calls, configMap.state.calls);
    if service.ok && configMap.ok && input.caBundle.Some? {
      PutAllStoresPrefix(f, configMap.state, PlanFor(webhooks).leaves, namespace, input.caBundle.value);
      CleanJoin(f, s.calls, configMap.state.calls, r.state.calls);
    }
  }

  /** A run succeeds exactly when none of its calls has failed, every registration is valid
      and the CA bundle is there; the first call that fails is its last. */
  lemma SuccessSpelledOut(f: Faults, s: State, webhooks: seq<CSWebhook>, input: Input, namespace: string)
    ensures var r := Reconciled(f, s, webhooks, input, namespace);
            && (forall t :: s.calls <= t < r.state.calls - 1 ==> !f(t))
            && (r.ok <==> && (forall t :: s.calls <= t < r.state.calls ==> !f(t))
                          && input.caBundle.Some?
                          && forall w :: 0 <= w < |webhooks| ==>
                               match webhooks[w].register
                               case AdmissionRegister(hookType, _) => hookType == "Mutating" || hookType == "Validating"
                               case ObjectRegister(obj) => obj.gvk.Some?)
  {
    RunStops(f, s, webhooks, input, namespace);
    SucceedsIff(f, s, webhooks, input, namespace);
    CompleteSpelledOut(webhooks);
  }

  /** The steps of a run come in order, wherever it stops: a configuration is written only
      once service and config map are in place and the CA bundle is there, and the config
      map only once the service is in place. */
  lemma StepsInOrder(f: Faults, s: State, webhooks: seq<CSWebhook>, input: Input, namespace: string)
    ensures var now := Reconciled(f, s, webhooks, input, namespace).state;
            var key := ObjectKey(namespace, "ibm-common-service-webhook");
            var configMap := ObjectKey(namespace, "ibm-cs-operator-webhook-ca");
            && (now.configs != s.configs ==> configMap in now.configMaps && input.caBundle.Some?)
            && (now.configs != s.configs || now.configMaps != s.configMaps
                ==> && key in now.services && now.services[key].clusterIP == "None"
                    && now.services[key].selector == map["name" := "ibm-common-service-webhook"]
                    && now.services[key].ports == [ServicePort("TCP", 443, 8443)])
  {
    ServiceIsHeadless(f, s, input.owner, namespace);
    var service := ServiceStep(f, s, input.owner, namespace);
    var configMap := ConfigMapStep(f, service.state, namespace);
    if service.ok && configMap.ok && input.caBundle.Some? {
      PutAllStoresPrefix(f, configMap.state, PlanFor(webhooks).leaves, namespace, input.caBundle.value);
    }
  }

  /** Every leaf of the plan is one that a registration asks for. */
  lemma {:induction false} LeafIsAskedFor(webhooks: seq<CSWebhook>, i: nat) returns (w: nat)
    requires i < |PlanFor(webhooks).leaves|
    ensures w < |webhooks|
    ensures var webhook, leaf := webhooks[w], PlanFor(webhooks).leaves[i];
            && Asks(webhook, leaf.kind, leaf.path)
            && leaf == Leaf(leaf.kind, leaf.path, webhook.name, webhook.webhookName, webhook.rule, webhook.nsSelector)
  {
    var endpoints := Endpoints(webhooks[0].register).value;
    if i < |endpoints| {
      w := 0;
      AsksIff(webhooks[0], endpoints[i].kind, endpoints[i].path);
    } else {
      assert PlanFor(webhooks).leaves[i] == PlanFor(webhooks[1..]).leaves[i - |endpoints|];
      var v := LeafIsAskedFor(webhooks[1..], i - |endpoints|);
      w := v + 1;
    }
  }

  /** Wherever a run stops, a configuration is as it was before the run or exactly as some
      registration of its kind and name asks. */
  lemma OldOrAskedFor(f: Faults, s: State, webhooks: seq<CSWebhook>, input: Input, namespace: string, kind: Kind,
                      name: string)
    ensures var configs, key := Reconciled(f, s, webhooks, input, namespace).state.configs, ConfigKey(kind, name);
            || ((key in configs <==> key in s.configs) && (key in configs ==> configs[key] == s.configs[key]))
            || (key in configs && input.caBundle.Some?
                && exists w, path :: 0 <= w < |webhooks| && webhooks[w].name == name && Asks(webhooks[w], kind, path)
                     && configs[key].webhooks
                        == [WebhookEntry(
                              webhooks[w].webhookName, "None", input.caBundle.value,
                              ServiceReference(namespace, "ibm-common-service-webhook", path, 443), [webhooks[w].rule],
                              "Exact", ["v1"], match kind case Mutating => "Ignore" case Validating => "Fail", 10,
                              webhooks[w].nsSelector)])
  {
    var key, leaves := ConfigKey(kind, name), PlanFor(webhooks).leaves;
    var n := FailedRunTouchesPrefix(f, s, webhooks, input, namespace);
    if input.caBundle.Some? {
      OverlayMeaning(s.configs, leaves[..n], namespace, input.caBundle.value, key);
      if key in Wanted(leaves[..n], namespace, input.caBundle.value) {
        var i := WantedFromLeaf(leaves[..n], namespace, input.caBundle.value, key);
        var w := LeafIsAskedFor(webhooks, i);
        assert Asks(webhooks[w], kind, leaves[i].path);
      }
    }
  }

  lemma {:induction false} PlanStops(webhooks: seq<CSWebhook>, w: nat)
    requires w < |webhooks| && Endpoints(webhooks[w].register).None?
    ensures PlanFor(webhooks) == PlanFor(webhooks[..w]).(complete := false)
  {
    if w > 0 {
      assert webhooks[..w][1..] == webhooks[1..][..w - 1];
      PlanStops(webhooks[1..], w - 1);
    }
  }

  /** A run ends at an invalid registration: it leaves what a run with only the registrations
      before it would, and fails. */
  lemma InvalidRegistrationStops(f: Faults, s: State, webhooks: seq<CSWebhook>, input: Input, namespace: string, w: nat)
    requires w < |webhooks|
    requires match webhooks[w].register
             case AdmissionRegister(hookType, _) => hookType != "Mutating" && hookType != "Validating"
             case ObjectRegister(obj) => obj.gvk.None?
    ensures var r := Reconciled(f, s, webhooks, input, namespace);
            !r.ok && r.state == Reconciled(f, s, webhooks[..w], input, namespace).state
  {
    EndpointsSpelledOut(webhooks[w].register);
    PlanStops(webhooks, w);
  }

  // ---------- nested reconcilers ----------

  lemma {:induction false} AllLeavesConcat(a: seq<Reconciler>, b: seq<Reconciler>)
    ensures AllLeaves(a + b) == AllLeaves(a) + AllLeaves(b)
  {
    if a == [] {
      assert a + b == b;
    } else {
      AllLeavesConcat(a[1..], b);
      FirstOut(a, b);
      Regroup(Leaves(a[0]), AllLeaves(a[1..]), AllLeaves(b));
    }
  }

  lemma FirstOut<T>(a: seq<T>, b: seq<T>)
    requires a != []
    ensures (a + b)[0] == a[0] && (a + b)[1..] == a[1..] + b
  {
  }

  lemma Regroup<T>(a: seq<T>, b: seq<T>, c: seq<T>)
    ensures a + (b + c) == (a + b) + c
  {
  }

  /** The leaves a nested run visits: grouping does not matter, order does. */
  lemma LeavesSpelledOut(leaf: WebhookReconciler, r: Reconciler, a: seq<Reconciler>, b: seq<Reconciler>)
    ensures Leaves(Single(leaf)) == [leaf]
    ensures Leaves(Composite([])) == []
    ensures Leaves(Composite([r])) == Leaves(r)
    ensures Leaves(Composite(a + b)) == Leaves(Composite(a)) + Leaves(Composite(b))
    ensures Leaves(Composite([Composite(a), Composite(b)])) == Leaves(Composite(a + b))
  {
    AllLeavesConcat(a, b);
    OneReconciler(r);
    OneReconciler(Composite(b));
    var nested := [Composite(a), Composite(b)];
    assert nested[1..] == [Composite(b)];
  }

  lemma OneReconciler(r: Reconciler)
    ensures AllLeaves([r]) == Leaves(r)
  {
    assert [r][1..] == [];
  }
}
