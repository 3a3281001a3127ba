/** What histories of reconciliation runs come to, each run failing at any call. */
module WebhookConvergence {
  import opened Results
  import opened WebhookCluster
  import opened WebhookReconcile

  // ---------- what the leaves of a run store ----------

  /** The stored configurations updated by a list of leaves, in order. */
  function Overlay(configs: map<ConfigKey, WebhookConfiguration>, leaves: seq<Leaf>, namespace: string, caBundle: Bytes)
    : map<ConfigKey, WebhookConfiguration>
  {
    if leaves == [] then configs
    else
      var rest := leaves[..|leaves| - 1];
      var before := Overlay(configs, rest, namespace, caBundle);
      var leaf := leaves[|leaves| - 1];
      before[leaf.Key() := Overwritten(before, leaf.Key(), Entry(leaf, namespace, caBundle))]
  }

  /** What is wanted under each key; the last registration of a key wins. */
  function Wanted(leaves: seq<Leaf>, namespace: string, caBundle: Bytes): map<ConfigKey, WebhookEntry>
  {
    if leaves == [] then map[]
    else
      var leaf := leaves[|leaves| - 1];
      Wanted(leaves[..|leaves| - 1], namespace, caBundle)[leaf.Key() := Entry(leaf, namespace, caBundle)]
  }

  lemma {:induction false} LastRegistrationWins(leaves: seq<Leaf>, namespace: string, caBundle: Bytes, i: nat)
    requires i < |leaves| && forall j :: i < j < |leaves| ==> leaves[j].Key() != leaves[i].Key()
    ensures var wanted := Wanted(leaves, namespace, caBundle);
            leaves[i].Key() in wanted && wanted[leaves[i].Key()] == Entry(leaves[i], namespace, caBundle)
  {
    if i < |leaves| - 1 {
      LastRegistrationWins(leaves[..|leaves| - 1], namespace, caBundle, i);
    }
  }

  function Metadata(configs: map<ConfigKey, WebhookConfiguration>, key: ConfigKey): string
  {
    if key in configs then configs[key].metadata else ""
  }

  /** An overlay fixes the webhooks of the wanted keys, keeps their metadata, and leaves
      every other configuration alone. */
  lemma {:induction false} OverlayMeaning(configs: map<ConfigKey, WebhookConfiguration>, leaves: seq<Leaf>,
                                          namespace: string, caBundle: Bytes, key: ConfigKey)
    ensures var r := Overlay(configs, leaves, namespace, caBundle);
            var wanted := Wanted(leaves, namespace, caBundle);
            if key in wanted then key in r && r[key] == WebhookConfiguration([wanted[key]], Metadata(configs, key))
            else (key in r <==> key in configs) && (key in r ==> r[key] == configs[key])
  {
    if leaves != [] {
      OverlayMeaning(configs, leaves[..|leaves| - 1], namespace, caBundle, key);
    }
  }

  lemma OverlayTwice(configs: map<ConfigKey, WebhookConfiguration>, leaves: seq<Leaf>, namespace: string,
                     caBundle: Bytes)
    ensures var once := Overlay(configs, leaves, namespace, caBundle); Overlay(once, leaves, namespace, caBundle) == once
  {
    var once := Overlay(configs, leaves, namespace, caBundle);
    var twice := Overlay(once, leaves, namespace, caBundle);
    forall key
      ensures (key in twice <==> key in once) && (key in twice ==> twice[key] == once[key])
    {
      OverlayMeaning(configs, leaves, namespace, caBundle, key);
      OverlayMeaning(once, leaves, namespace, caBundle, key);
    }
    assert twice.Keys == once.Keys;
  }

  // ---------- one run ----------

  /** No call from the first counter up to the second has failed. */
  ghost predicate Clean(f: Faults, from: nat, to: nat)
  {
    forall t :: from <= t < to ==> !f(t)
  }

  /** How many leaves a run has written when it stops. */
  function Reached(f: Faults, s: State, leaves: seq<Leaf>, namespace: string, caBundle: Bytes): (n: nat)
    ensures n <= |leaves|
    decreases |leaves|
  {
    if leaves == [] then 0
    else
      var first := PutConfig(f, s, leaves[0].Key(), Entry(leaves[0], namespace, caBundle));
      if first.ok then 1 + Reached(f, first.state, leaves[1..], namespace, caBundle) else 0
  }

  lemma {:induction false} OverlayFirst(configs: map<ConfigKey, WebhookConfiguration>, first: Leaf, rest: seq<Leaf>,
                                        namespace: string, caBundle: Bytes)
    ensures Overlay(configs, [first] + rest, namespace, caBundle)
            == Overlay(Overlay(configs, [first], namespace, caBundle), rest, namespace, caBundle)
  {
    if rest == [] {
      assert [first] + rest == [first];
    } else {
      OverlayFirst(configs, first, rest[..|rest| - 1], namespace, caBundle);
      var all := [first] + rest;
      assert all[..|rest|] == [first] + rest[..|rest| - 1] && all[|rest|] == rest[|rest| - 1];
    }
  }

  lemma PutConfigEffect(f: Faults, s: State, key: ConfigKey, entry: WebhookEntry)
    ensures var r := PutConfig(f, s, key, entry);
            && r.state.configs == (if r.ok then s.configs[key := Overwritten(s.configs, key, entry)] else s.configs)
            && r.state.services == s.services && r.state.configMaps == s.configMaps
            && s.calls <= r.state.calls
            && (r.ok <==> Clean(f, s.calls, r.state.calls))
  {
    var r := PutConfig(f, s, key, entry);
    assert r.ok || f(r.state.calls - 1);
  }

  lemma CleanJoin(f: Faults, a: nat, b: nat, c: nat)
    requires a <= b <= c
    ensures Clean(f, a, c) <==> Clean(f, a, b) && Clean(f, b, c)
  {
  }

  /** A run over leaves, failed or not, has stored an initial segment of them and touched
      nothing else; it succeeds exactly when none of its calls failed. */
  lemma {:induction false} PutAllStoresPrefix(f: Faults, s: State, leaves: seq<Leaf>, namespace: string,
                                              caBundle: Bytes)
    ensures var r := PutAll(f, s, leaves, namespace, caBundle);
            var n := Reached(f, s, leaves, namespace, caBundle);
            && r.state.configs == Overlay(s.configs, leaves[..n], namespace, caBundle)
            && r.state.services == s.services && r.state.configMaps == s.configMaps
            && s.calls <= r.state.calls
            && (r.ok <==> n == |leaves|)
            && (r.ok <==> Clean(f, s.calls, r.state.calls))
    decreases |leaves|
  {
    if leaves != [] {
      var leaf, rest := leaves[0], leaves[1..];
      var first := PutConfig(f, s, leaf.Key(), Entry(leaf, namespace, caBundle));
      PutConfigEffect(f, s, leaf.Key(), Entry(leaf, namespace, caBundle));
      if first.ok {
        PutAllStoresPrefix(f, first.state, rest, namespace, caBundle);
        var n := Reached(f, first.state, rest, namespace, caBundle);
        OverlayHead(s.configs, leaves, n + 1, namespace, caBundle);
        CleanJoin(f, s.calls, first.state.calls, PutAll(f, s, leaves, namespace, caBundle).state.calls);
      } else {
        assert leaves[..0] == [];
      }
    }
  }

  lemma OverlayHead(configs: map<ConfigKey, WebhookConfiguration>, leaves: seq<Leaf>, n: nat, namespace: string,
                    caBundle: Bytes)
    requires 1 <= n <= |leaves|
    ensures var leaf := leaves[0];
            Overlay(configs, leaves[..n], namespace, caBundle)
            == Overlay(configs[leaf.Key() := Overwritten(configs, leaf.Key(), Entry(leaf, namespace, caBundle))],
                       leaves[1..][..n - 1], namespace, caBundle)
  {
    assert leaves[..n] == [leaves[0]] + leaves[1..][..n - 1];
    OverlayFirst(configs, leaves[0], leaves[1..][..n - 1], namespace, caBundle);
    assert [leaves[0]][..0] == [];
  }

  lemma PutServiceEffect(f: Faults, s: State, owner: Option<string>, namespace: string)
    requires var key := ServiceKey(namespace); key in s.services ==> s.services[key].clusterIP == HEADLESS
    ensures var r := PutService(f, s, owner, namespace);
            var key := ServiceKey(namespace);
            && r.state.configs == s.configs && r.state.configMaps == s.configMaps
            && s.calls <= r.state.calls
            && (r.ok <==> Clean(f, s.calls, r.state.calls))
            && r.state.services == if r.ok then 
                                     s.services[key := Desired(if key in s.services then s.services[key] else NEW_SERVICE, owner)]
                                   else s.services
  {
    var r := PutService(f, s, owner, namespace);
    assert r.ok || f(r.state.calls - 1);
  }

  /** The service step: it fails only when a call fails, never because the server would
      not change a cluster IP; on success the service is headless, whatever it was. */
  lemma ServiceIsHeadless(f: Faults, s: State, owner: Option<string>, namespace: string)
    ensures var r := ServiceStep(f, s, owner, namespace);
            var key := ServiceKey(namespace);
            && r.state.configs == s.configs && r.state.configMaps == s.configMaps
            && s.calls <= r.state.calls
            && (r.ok <==> Clean(f, s.calls, r.state.calls))
            && r.state.services - {key} == s.services - {key}
            && (r.ok ==> key in r.state.services && r.state.services[key].clusterIP == HEADLESS
                         && r.state.services[key]
                            == Desired(if key in s.services && s.services[key].clusterIP == HEADLESS
                                       then s.services[key] else NEW_SERVICE, owner))
            && (!r.ok ==> r.state.services == s.services
                          || (key in s.services && s.services[key].clusterIP != HEADLESS
                              && r.state.services == s.services - {key}))
  {
    var key := ServiceKey(namespace);
    var s1 := s.Tick();
    if f(s.calls) {
      assert !Clean(f, s.calls, s1.calls);
    } else if key in s.services && s.services[key].clusterIP != HEADLESS {
      var s2 := s1.Tick().(services := s.services - {key});
      if f(s1.calls) {
        assert !Clean(f, s.calls, s2.calls);
      } else {
        PutServiceEffect(f, s2, owner, namespace);
        CleanJoin(f, s.calls, s2.calls, PutService(f, s2, owner, namespace).state.calls);
      }
    } else {
      PutServiceEffect(f, s1, owner, namespace);
      CleanJoin(f, s.calls, s1.calls, PutService(f, s1, owner, namespace).state.calls);
    }
  }

  /** Whatever point a run fails at, the configurations are the old ones updated by an
      initial segment of the flattened registrations. */
  lemma FailedRunTouchesPrefix(f: Faults, s: State, webhooks: seq<CSWebhook>, input: Input, namespace: string)
    returns (n: nat)
    ensures var r := Reconciled(f, s, webhooks, input, namespace);
            var leaves := PlanFor(webhooks).leaves;
            && n <= |leaves|
            && (n > 0 ==> input.caBundle.Some?)
            && r.state.configs == (if input.caBundle.Some? then Overlay(s.configs, leaves[..n], namespace, input.caBundle.value)
                                   else s.configs)
            && (r.ok ==> n == |leaves| && PlanFor(webhooks).complete && input.caBundle.Some?)
            && r.state.services - {ServiceKey(namespace)} == s.services - {ServiceKey(namespace)}
  {
    var leaves := PlanFor(webhooks).leaves;
    ServiceIsHeadless(f, s, input.owner, namespace);
    var service := ServiceStep(f, s, input.owner, namespace);
    var configMap := ConfigMapStep(f, service.state, namespace);
    n := 0;
    if service.ok && configMap.ok && input.caBundle.Some? {
      n := Reached(f, configMap.state, leaves, namespace, input.caBundle.value);
      PutAllStoresPrefix(f, configMap.state, leaves, namespace, input.caBundle.value);
    }
  }

  /** The service the webhook server is reached through, recording the owner of the run. */
  predicate Ready(service: Service, owner: Option<string>)
  {
    && service.clusterIP == HEADLESS
    && service.selector == map["name" := "ibm-common-service-webhook"]
    && service.ports == [ServicePort("TCP", SERVICE_PORT, OPERATOR_POD_PORT)]
    && CA_SERVICE_ANNOTATION in service.annotations
    && service.annotations[CA_SERVICE_ANNOTATION] == "cs-webhook-cert"
    && (owner.Some? ==> owner.value in service.owners)
  }

  /** A successful run in full. */
  lemma SuccessfulRun(f: Faults, s: State, webhooks: seq<CSWebhook>, input: Input, namespace: string)
    requires Reconciled(f, s, webhooks, input, namespace).ok
    ensures input.caBundle.Some?
    ensures var now := Reconciled(f, s, webhooks, input, namespace).state;
            var key := ServiceKey(namespace);
            && now.configs == Overlay(s.configs, PlanFor(webhooks).leaves, namespace, input.caBundle.value)
            && now.services == ServiceStep(f, s, input.owner, namespace).state.services
            && key in now.services && Ready(now.services[key], input.owner)
            && now.configMaps == (if ConfigMapKey(namespace) in s.configMaps then s.configMaps
                                  else s.configMaps[ConfigMapKey(namespace) := NEW_CONFIG_MAP])
  {
    var leaves := PlanFor(webhooks).leaves;
    ServiceIsHeadless(f, s, input.owner, namespace);
    var service := ServiceStep(f, s, input.owner, namespace);
    var configMap := ConfigMapStep(f, service.state, namespace);
    PutAllStoresPrefix(f, configMap.state, leaves, namespace, input.caBundle.value);
    assert leaves[..|leaves|] == leaves;
  }

  /** A run that meets no fault succeeds, provided every registration is valid and the CA
      bundle is there. */
  lemma FaultFreeRunSucceeds(f: Faults, s: State, webhooks: seq<CSWebhook>, input: Input, namespace: string)
    requires forall t :: s.calls <= t ==> !f(t)
    requires PlanFor(webhooks).complete && input.caBundle.Some?
    ensures Reconciled(f, s, webhooks, input, namespace).ok
  {
    ServiceIsHeadless(f, s, input.owner, namespace);
    var service := ServiceStep(f, s, input.owner, namespace);
    var configMap := ConfigMapStep(f, service.state, namespace);
    PutAllStoresPrefix(f, configMap.state, PlanFor(webhooks).leaves, namespace, input.caBundle.value);
  }

  /** Another successful run with the same owner and bundle leaves everything stored as
      it is. */
  lemma SecondRunChangesNothing(f: Faults, s: State, webhooks: seq<CSWebhook>, input: Input, namespace: string)
    requires Reconciled(f, s, webhooks, input, namespace).ok
    requires Reconciled(f, Reconciled(f, s, webhooks, input, namespace).state, webhooks, input, namespace).ok
    ensures var now := Reconciled(f, s, webhooks, input, namespace).state;
            var again := Reconciled(f, now, webhooks, input, namespace).state;
            && again.configs == now.configs && again.services == now.services && again.configMaps == now.configMaps
  {
    var now := Reconciled(f, s, webhooks, input, namespace).state;
    SuccessfulRun(f, s, webhooks, input, namespace);
    SuccessfulRun(f, now, webhooks, input, namespace);
    OverlayTwice(s.configs, PlanFor(webhooks).leaves, namespace, input.caBundle.value);
    ServiceTwice(f, s, input.owner, namespace, now);
  }

  lemma ServiceTwice(f: Faults, s: State, owner: Option<string>, namespace: string, now: State)
    requires ServiceStep(f, s, owner, namespace).ok
    requires now.services == ServiceStep(f, s, owner, namespace).state.services
    requires ServiceStep(f, now, owner, namespace).ok
    ensures ServiceStep(f, now, owner, namespace).state.services == now.services
  {
    ServiceIsHeadless(f, s, owner, namespace);
    var key := ServiceKey(namespace);
    var base := if key in s.services && s.services[key].clusterIP == HEADLESS then s.services[key] else NEW_SERVICE;
    assert now.services[key] == Desired(base, owner);
    assert Desired(Desired(base, owner), owner) == Desired(base, owner);
  }

  // ---------- histories ----------

  /** The state after a history of runs, successful or not. */
  function History(f: Faults, s: State, webhooks: seq<CSWebhook>, inputs: seq<Input>, namespace: string): State
  {
    if inputs == [] then s
    else Reconciled(f, History(f, s, webhooks, inputs[..|inputs| - 1], namespace), webhooks,
                    inputs[|inputs| - 1], namespace).state
  }

  predicate Registered(webhooks: seq<CSWebhook>, key: ConfigKey)
  {
    exists i :: 0 <= i < |PlanFor(webhooks).leaves| && PlanFor(webhooks).leaves[i].Key() == key
  }

  lemma {:induction false} WantedKeys(leaves: seq<Leaf>, namespace: string, caBundle: Bytes, key: ConfigKey)
    ensures key in Wanted(leaves, namespace, caBundle) <==> exists i :: 0 <= i < |leaves| && leaves[i].Key() == key
  {
    if leaves != [] {
      var n := |leaves| - 1;
      WantedKeys(leaves[..n], namespace, caBundle, key);
      if key in Wanted(leaves[..n], namespace, caBundle) {
        var i :| 0 <= i < n && leaves[..n][i].Key() == key;
        assert leaves[i].Key() == key;
      } else if leaves[n].Key() != key {
        forall i | 0 <= i < |leaves|
          ensures leaves[i].Key() != key
        {
          assert i < n ==> leaves[..n][i] == leaves[i];
        }
      }
    }
  }

  /** No history touches a configuration that is not registered, or the metadata of one
      that is. */
  lemma {:induction false} HistoryFrame(f: Faults, s: State, webhooks: seq<CSWebhook>, inputs: seq<Input>,
                                        namespace: string, key: ConfigKey)
    ensures var now := History(f, s, webhooks, inputs, namespace);
            && Metadata(now.configs, key) == Metadata(s.configs, key)
            && (!Registered(webhooks, key) ==> (key in now.configs <==> key in s.configs)
                                               && (key in now.configs ==> now.configs[key] == s.configs[key]))
  {
    if inputs != [] {
      var rest, input := inputs[..|inputs| - 1], inputs[|inputs| - 1];
      var before := History(f, s, webhooks, rest, namespace);
      HistoryFrame(f, s, webhooks, rest, namespace, key);
      var n := FailedRunTouchesPrefix(f, before, webhooks, input, namespace);
      if input.caBundle.Some? {
        var leaves := PlanFor(webhooks).leaves;
        OverlayMeaning(before.configs, leaves[..n], namespace, input.caBundle.value, key);
        WantedKeys(leaves[..n], namespace, input.caBundle.value, key);
        if i :| 0 <= i < n && leaves[..n][i].Key() == key {
          assert leaves[i].Key() == key;
        }
      }
    }
  }

  /** What is stored, compared with the start: under a wanted key exactly its entry, with
      the metadata it had; any other configuration as it was. */
  ghost predicate ConfigAsWanted(now: State, start: State, wanted: map<ConfigKey, WebhookEntry>, key: ConfigKey)
  {
    if key in wanted then
      key in now.configs && now.configs[key] == WebhookConfiguration([wanted[key]], Metadata(start.configs, key))
    else
      (key in now.configs <==> key in start.configs) && (key in now.configs ==> now.configs[key] == start.configs[key])
  }

  /** All a successful run brings about, in terms of the start of the history, the
      registrations, the namespace and the run's own input. */
  ghost predicate Converged(now: State, start: State, webhooks: seq<CSWebhook>, input: Input, namespace: string)
  {
    && input.caBundle.Some?
    && (forall key :: ConfigAsWanted(now, start, Wanted(PlanFor(webhooks).leaves, namespace, input.caBundle.value), key))
    && ServiceKey(namespace) in now.services && Ready(now.services[ServiceKey(namespace)], input.owner)
    && ConfigMapKey(namespace) in now.configMaps
  }

  /** Convergence: after any history of runs, each failing at any call, one successful run
      leaves under each registered key exactly what the registrations, the namespace and
      the CA bundle determine; every other configuration is as at the start; and the
      service is headless, whatever it was. */
  lemma Converges(f: Faults, s: State, webhooks: seq<CSWebhook>, inputs: seq<Input>, last: Input, namespace: string)
    requires Reconciled(f, History(f, s, webhooks, inputs, namespace), webhooks, last, namespace).ok
    ensures Converged(Reconciled(f, History(f, s, webhooks, inputs, namespace), webhooks, last, namespace).state,
                      s, webhooks, last, namespace)
  {
    var before := History(f, s, webhooks, inputs, namespace);
    var leaves := PlanFor(webhooks).leaves;
    SuccessfulRun(f, before, webhooks, last, namespace);
    var now := Reconciled(f, before, webhooks, last, namespace).state;
    forall key
      ensures ConfigAsWanted(now, s, Wanted(leaves, namespace, last.caBundle.value), key)
    {
      OverlayMeaning(before.configs, leaves, namespace, last.caBundle.value, key);
      WantedKeys(leaves, namespace, last.caBundle.value, key);
      HistoryFrame(f, s, webhooks, inputs, namespace, key);
    }
  }

  /** And once faults stop, the next run is such a run. */
  lemma ConvergesWhenFaultsStop(f: Faults, s: State, webhooks: seq<CSWebhook>, inputs: seq<Input>, last: Input,
                                namespace: string)
    requires forall t :: History(f, s, webhooks, inputs, namespace).calls <= t ==> !f(t)
    requires PlanFor(webhooks).complete && last.caBundle.Some?
    ensures Converged(History(f, s, webhooks, inputs + [last], namespace), s, webhooks, last, namespace)
  {
    FaultFreeRunSucceeds(f, History(f, s, webhooks, inputs, namespace), webhooks, last, namespace);
    assert (inputs + [last])[..|inputs|] == inputs;
    Converges(f, s, webhooks, inputs, last, namespace);
  }

  // ---------- runs that write nothing ----------

  /** Every leaf's entry is already what is stored under its key. */
  ghost predicate Stored(configs: map<ConfigKey, WebhookConfiguration>, leaves: seq<Leaf>, namespace: string, caBundle: Bytes)
  {
    forall i :: 0 <= i < |leaves| ==>
      leaves[i].Key() in configs && configs[leaves[i].Key()].webhooks == [Entry(leaves[i], namespace, caBundle)]
  }

  /** A successful run over leaves reads each of them once. It makes no call beyond that,
      and so no write, exactly when every leaf is stored already. */
  lemma {:induction false} ReadOnlyIff(f: Faults, s: State, leaves: seq<Leaf>, namespace: string, caBundle: Bytes)
    requires PutAll(f, s, leaves, namespace, caBundle).ok
    ensures var r := PutAll(f, s, leaves, namespace, caBundle);
            && r.state.calls >= s.calls + |leaves|
            && (r.state.calls == s.calls + |leaves| <==> Stored(s.configs, leaves, namespace, caBundle))
    decreases |leaves|
  {
    if leaves != [] {
      var leaf, rest := leaves[0], leaves[1..];
      var first := PutConfig(f, s, leaf.Key(), Entry(leaf, namespace, caBundle));
      ReadOnlyIff(f, first.state, rest, namespace, caBundle);
      assert forall i :: 0 <= i < |rest| ==> rest[i] == leaves[i + 1];
      assert forall i :: 1 <= i < |leaves| ==> leaves[i] == rest[i - 1];
    }
  }

  /** Registrations of one key ask for one entry. */
  ghost predicate Consistent(leaves: seq<Leaf>, namespace: string, caBundle: Bytes)
  {
    forall i, j :: 0 <= i < |leaves| && 0 <= j < |leaves| && leaves[i].Key() == leaves[j].Key()
      ==> Entry(leaves[i], namespace, caBundle) == Entry(leaves[j], namespace, caBundle)
  }

  lemma {:induction false} WantedFromLeaf(leaves: seq<Leaf>, namespace: string, caBundle: Bytes, key: ConfigKey)
    returns (i: nat)
    requires key in Wanted(leaves, namespace, caBundle)
    ensures i < |leaves| && leaves[i].Key() == key
    ensures Wanted(leaves, namespace, caBundle)[key] == Entry(leaves[i], namespace, caBundle)
  {
    var n := |leaves| - 1;
    if leaves[n].Key() == key {
      i := n;
    } else {
      i := WantedFromLeaf(leaves[..n], namespace, caBundle, key);
    }
  }

  lemma OverlayStoredIff(configs: map<ConfigKey, WebhookConfiguration>, leaves: seq<Leaf>, namespace: string,
                         caBundle: Bytes)
    ensures Stored(Overlay(configs, leaves, namespace, caBundle), leaves, namespace, caBundle)
            <==> Consistent(leaves, namespace, caBundle)
  {
    var now, wanted := Overlay(configs, leaves, namespace, caBundle), Wanted(leaves, namespace, caBundle);
    forall i | 0 <= i < |leaves|
      ensures leaves[i].Key() in wanted && leaves[i].Key() in now
      ensures now[leaves[i].Key()].webhooks == [wanted[leaves[i].Key()]]
    {
      WantedKeys(leaves, namespace, caBundle, leaves[i].Key());
      OverlayMeaning(configs, leaves, namespace, caBundle, leaves[i].Key());
    }
    if Consistent(leaves, namespace, caBundle) {
      forall i | 0 <= i < |leaves|
        ensures wanted[leaves[i].Key()] == Entry(leaves[i], namespace, caBundle)
      {
        var j := WantedFromLeaf(leaves, namespace, caBundle, leaves[i].Key());
      }
    }
    if Stored(now, leaves, namespace, caBundle) {
      forall i | 0 <= i < |leaves|
        ensures wanted[leaves[i].Key()] == Entry(leaves[i], namespace, caBundle)
      {
        assert [wanted[leaves[i].Key()]][0] == [Entry(leaves[i], namespace, caBundle)][0];
      }
    }
  }

  /** A second successful run finds everything as it should be and only reads, two reads of
      the service, the attempt to create a config map that exists, and one read for each
      leaf, exactly when registrations of one key ask for one entry. Otherwise every run
      rewrites such a key, although what is stored in the end is the same. */
  lemma SecondRunReadsOnlyIff(f: Faults, s: State, webhooks: seq<CSWebhook>, input: Input, namespace: string)
    requires Reconciled(f, s, webhooks, input, namespace).ok
    requires Reconciled(f, Reconciled(f, s, webhooks, input, namespace).state, webhooks, input, namespace).ok
    ensures input.caBundle.Some?
    ensures var now := Reconciled(f, s, webhooks, input, namespace).state;
            var again := Reconciled(f, now, webhooks, input, namespace).state;
            var leaves := PlanFor(webhooks).leaves;
            && again.calls >= now.calls + 3 + |leaves|
            && (again.calls == now.calls + 3 + |leaves| <==> Consistent(leaves, namespace, input.caBundle.value))
  {
    var leaves := PlanFor(webhooks).leaves;
    var now := Reconciled(f, s, webhooks, input, namespace).state;
    SuccessfulRun(f, s, webhooks, input, namespace);
    ServiceIsHeadless(f, s, input.owner, namespace);
    ServiceReadTwice(f, now, input.owner, namespace);
    var service := ServiceStep(f, now, input.owner, namespace);
    var configMap := ConfigMapStep(f, service.state, namespace);
    ReadOnlyIff(f, configMap.state, leaves, namespace, input.caBundle.value);
    OverlayStoredIff(s.configs, leaves, namespace, input.caBundle.value);
  }

  lemma ServiceReadTwice(f: Faults, now: State, owner: Option<string>, namespace: string)
    requires ServiceStep(f, now, owner, namespace).ok
    requires ServiceKey(namespace) in now.services && Ready(now.services[ServiceKey(namespace)], owner)
    ensures ServiceStep(f, now, owner, namespace).state == now.Tick().Tick()
  {
    var service := now.services[ServiceKey(namespace)];
    assert Desired(service, owner) == service by {
      assert service.owners + (if owner.Some? then {owner.value} else {}) == service.owners;
      assert service.annotations[CA_SERVICE_ANNOTATION := "cs-webhook-cert"] == service.annotations;
    }
  }

  // ---------- adding a registration ----------

  lemma {:induction false} PlanSnoc(webhooks: seq<CSWebhook>, webhook: CSWebhook)
    requires PlanFor(webhooks).complete && Endpoints(webhook.register).Some?
    ensures PlanFor(webhooks + [webhook])
            == Plan(PlanFor(webhooks).leaves + LeavesFor(webhook, Endpoints(webhook.register).value), true)
  {
    if webhooks == [] {
      assert (webhooks + [webhook])[1..] == [];
    } else {
      PlanSnoc(webhooks[1..], webhook);
      assert (webhooks + [webhook])[1..] == webhooks[1..] + [webhook];
    }
  }

  /** A valid registration that is added settles what is wanted under each of its own keys,
      whatever was registered for them before. */
  lemma AddedRegistrationWins(webhooks: seq<CSWebhook>, webhook: CSWebhook, namespace: string, caBundle: Bytes, i: nat)
    requires PlanFor(webhooks).complete && Endpoints(webhook.register).Some?
    requires i < |Endpoints(webhook.register).value|
    ensures var leaf := LeafFor(webhook, Endpoints(webhook.register).value[i]);
            var wanted := Wanted(PlanFor(webhooks + [webhook]).leaves, namespace, caBundle);
            leaf.Key() in wanted && wanted[leaf.Key()] == Entry(leaf, namespace, caBundle)
  {
    PlanSnoc(webhooks, webhook);
    var n, own := |PlanFor(webhooks).leaves|, LeavesFor(webhook, Endpoints(webhook.register).value);
    var all := PlanFor(webhooks + [webhook]).leaves;
    assert all[n + i] == own[i];
    forall j | n + i < j < |all|
      ensures all[j].Key() != all[n + i].Key()
    {
      assert all[j] == own[j - n];
    }
    LastRegistrationWins(all, namespace, caBundle, n + i);
  }
}
