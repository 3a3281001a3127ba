/** Reconciling the registered webhooks with the API server. */
module WebhookReconcile {
  import opened Results
  import opened WebhookCluster

  const OPERATOR_POD_SERVICE_NAME := "ibm-common-service-webhook"
  const OPERATOR_POD_PORT := 8443
  const SERVICE_PORT := 443
  const CA_CONFIG_MAP := "ibm-cs-operator-webhook-ca"
  const CA_CONFIG_MAP_ANNOTATION := "service.beta.openshift.io/inject-cabundle"
  const CA_SERVICE_ANNOTATION := "service.beta.openshift.io/serving-cert-secret-name"
  const HEADLESS := "None"

  /** A step of the reconciliation: the state it leaves, and whether it succeeded. */
  datatype Step = Step(state: State, ok: bool)

  // ---------- one webhook configuration ----------

  /** All a mutating or validating reconciler knows when it runs. */
  datatype Leaf = Leaf(kind: Kind, path: string, name: string, webhookName: string, rule: Rule, nsSelector: string)
  {
    function Key(): ConfigKey { ConfigKey(kind, name) }
  }

  function Entry(leaf: Leaf, namespace: string, caBundle: Bytes): WebhookEntry
  {
    WebhookEntry(
      leaf.webhookName, "None", caBundle,
      ServiceReference(namespace, OPERATOR_POD_SERVICE_NAME, leaf.path, SERVICE_PORT),
      [leaf.rule], "Exact", ["v1"], if leaf.kind.Mutating? then "Ignore" else "Fail", 10, leaf.nsSelector)
  }

  /** The stored configuration once its webhooks are overwritten; its metadata stays. */
  function Overwritten(configs: map<ConfigKey, WebhookConfiguration>, key: ConfigKey, entry: WebhookEntry): WebhookConfiguration
  {
    WebhookConfiguration([entry], if key in configs then configs[key].metadata else "")
  }

  /** Read the configuration, overwrite its webhooks, and write it back unless it is
      unchanged. */
  function PutConfig(f: Faults, s: State, key: ConfigKey, entry: WebhookEntry): Step
  {
    var s1 := s.Tick();
    var config := Overwritten(s.configs, key, entry);
    if f(s.calls) then Step(s1, false)
    else if key in s.configs && s.configs[key] == config then Step(s1, true)
    else if f(s1.calls) then Step(s1.Tick(), false)
    else Step(s1.Tick().(configs := s.configs[key := config]), true)
  }

  method ReconcileConfig(cluster: Cluster, leaf: Leaf, namespace: string, caBundle: Bytes) returns (ok: bool)
    modifies cluster
    ensures Step(cluster.Now(), ok)
            == PutConfig(cluster.faults, old(cluster.Now()), leaf.Key(), Entry(leaf, namespace, caBundle))
  {
    var entry := Entry(leaf, namespace, caBundle);
    var found := cluster.GetConfig(leaf.Key());
    match found
    case Fault => ok := false;
    case NotFound =>
      ok := cluster.WriteConfig(leaf.Key(), WebhookConfiguration([entry], ""));
    case Found(existing) =>
      var updated := existing.(webhooks := [entry]);
      if updated == existing {
        ok := true;
      } else {
        ok := cluster.WriteConfig(leaf.Key(), updated);
      }
  }

  // ---------- composite reconcilers ----------

  class WebhookReconciler {
    const kind: Kind
    const path: string
    var name: string
    var webhookName: string
    var rule: Rule
    var nsSelector: string

    constructor (kind: Kind, path: string)
      ensures this.kind == kind && this.path == path
    {
      this.kind, this.path := kind, path;
    }

    function Value(): Leaf
      reads this
    {
      Leaf(kind, path, name, webhookName, rule, nsSelector)
    }
  }

  datatype Reconciler = Single(leaf: WebhookReconciler) | Composite(reconcilers: seq<Reconciler>)

  /** The leaves of a reconciler, however deeply nested, in order. */
  function Leaves(r: Reconciler): seq<WebhookReconciler>
    decreases r, 1
  {
    match r
    case Single(leaf) => [leaf]
    case Composite(rs) => AllLeaves(rs)
  }

  function AllLeaves(rs: seq<Reconciler>): seq<WebhookReconciler>
    decreases rs, 0
  {
    if rs == [] then [] else Leaves(rs[0]) + AllLeaves(rs[1..])
  }

  function Values(leaves: seq<WebhookReconciler>): (s: seq<Leaf>)
    reads leaves
    ensures |s| == |leaves|
    ensures forall i :: 0 <= i < |leaves| ==> s[i] == leaves[i].Value()
  {
    if leaves == [] then [] else [leaves[0].Value()] + Values(leaves[1..])
  }

  lemma ValuesConcat(a: seq<WebhookReconciler>, b: seq<WebhookReconciler>)
    ensures Values(a + b) == Values(a) + Values(b)
  {
  }

  /** The four setters of a reconciler, which all walk it in the same way. */
  datatype Setting = Name(name: string) | WebhookName(webhookName: string) | RuleIs(rule: Rule) | NsSelector(nsSelector: string)

  function WithSetting(leaf: Leaf, setting: Setting): Leaf
  {
    match setting
    case Name(name) => leaf.(name := name)
    case WebhookName(webhookName) => leaf.(webhookName := webhookName)
    case RuleIs(rule) => leaf.(rule := rule)
    case NsSelector(nsSelector) => leaf.(nsSelector := nsSelector)
  }

  function LeafSet(r: Reconciler): set<WebhookReconciler>
  {
    set l | l in Leaves(r)
  }

  function LeafSets(rs: seq<Reconciler>): set<WebhookReconciler>
  {
    set l | l in AllLeaves(rs)
  }

  lemma SplitLeafSets(rs: seq<Reconciler>, i: nat)
    requires i < |rs|
    ensures LeafSets(rs[i..]) == LeafSet(rs[i]) + LeafSets(rs[i + 1..])
  {
    assert rs[i..][1..] == rs[i + 1..];
  }

  /** A setter reaches every leaf, and changes nothing else in it. */
  method Set(r: Reconciler, setting: Setting, ghost leaves: set<WebhookReconciler>)
    requires leaves == LeafSet(r)
    modifies leaves
    ensures forall l :: l in leaves ==> l.Value() == WithSetting(old(l.Value()), setting)
    decreases r
  {
    match r
    case Single(leaf) =>
      assert leaf in leaves;
      match setting {
        case Name(name) => leaf.name := name;
        case WebhookName(webhookName) => leaf.webhookName := webhookName;
        case RuleIs(rule) => leaf.rule := rule;
        case NsSelector(nsSelector) => leaf.nsSelector := nsSelector;
      }
    case Composite(rs) =>
      ghost var todo := leaves;
      assert rs[0..] == rs;
      for i := 0 to |rs|
        invariant todo == LeafSets(rs[i..]) <= leaves
        invariant forall l :: l in leaves && l !in todo ==> l.Value() == WithSetting(old(l.Value()), setting)
        invariant forall l :: l in leaves ==> l.Value() == old(l.Value()) || l.Value() == WithSetting(old(l.Value()), setting)
      {
        SplitLeafSets(rs, i);
        Set(rs[i], setting, LeafSet(rs[i]));
        todo := LeafSets(rs[i + 1..]);
      }
  }

  /** Leaves run in order; the first failure stops the run. */
  function PutAll(f: Faults, s: State, leaves: seq<Leaf>, namespace: string, caBundle: Bytes): Step
    decreases |leaves|
  {
    if leaves == [] then Step(s, true)
    else
      var first := PutConfig(f, s, leaves[0].Key(), Entry(leaves[0], namespace, caBundle));
      if first.ok then PutAll(f, first.state, leaves[1..], namespace, caBundle) else first
  }

  lemma {:induction false} PutAllConcat(f: Faults, s: State, a: seq<Leaf>, b: seq<Leaf>, namespace: string,
                                        caBundle: Bytes)
    ensures var first := PutAll(f, s, a, namespace, caBundle);
            PutAll(f, s, a + b, namespace, caBundle)
            == if first.ok then PutAll(f, first.state, b, namespace, caBundle) else first
    decreases |a|
  {
    if a == [] {
      assert a + b == b;
    } else {
      assert (a + b)[1..] == a[1..] + b;
      var first := PutConfig(f, s, a[0].Key(), Entry(a[0], namespace, caBundle));
      if first.ok {
        PutAllConcat(f, first.state, a[1..], b, namespace, caBundle);
      }
    }
  }

  /** A nested run is the run over the flattened leaves, with the same early stop. */
  method ReconcileAll(cluster: Cluster, r: Reconciler, namespace: string, caBundle: Bytes, ghost leaves: seq<Leaf>)
    returns (ok: bool)
    requires leaves == Values(Leaves(r))
    modifies cluster
    ensures Step(cluster.Now(), ok) == PutAll(cluster.faults, old(cluster.Now()), leaves, namespace, caBundle)
    decreases r
  {
    match r
    case Single(leaf) =>
      ok := ReconcileConfig(cluster, leaf.Value(), namespace, caBundle);
    case Composite(rs) =>
      ghost var f, s := cluster.faults, cluster.Now();
      ghost var rest := leaves;
      assert rs[0..] == rs;
      for i := 0 to |rs|
        invariant rest == Values(AllLeaves(rs[i..]))
        invariant PutAll(f, cluster.Now(), rest, namespace, caBundle) == PutAll(f, s, leaves, namespace, caBundle)
      {
        ghost var now, first := cluster.Now(), Values(Leaves(rs[i]));
        SplitLeaves(rs, i);
        rest := Values(AllLeaves(rs[i + 1..]));
        PutAllConcat(f, now, first, rest, namespace, caBundle);
        ok := ReconcileAll(cluster, rs[i], namespace, caBundle, first);
        if !ok {
          return;
        }
      }
      ok := true;
  }

  lemma SplitLeaves(rs: seq<Reconciler>, i: nat)
    requires i < |rs|
    ensures Values(AllLeaves(rs[i..])) == Values(Leaves(rs[i])) + Values(AllLeaves(rs[i + 1..]))
  {
    assert rs[i..][1..] == rs[i + 1..];
    ValuesConcat(Leaves(rs[i]), AllLeaves(rs[i + 1..]));
  }

  // ---------- registered webhooks ----------

  const VALIDATING_TYPE := "Validating"
  const MUTATING_TYPE := "Mutating"

  /** What the webhook server knows of an object: its rendered group, version and kind, if
      it is in the scheme, and which admission interfaces it implements. */
  datatype ObjectInfo = ObjectInfo(gvk: Option<string>, isDefaulter: bool, isValidator: bool)
  datatype Register = AdmissionRegister(hookType: string, path: string) | ObjectRegister(obj: ObjectInfo)
  datatype CSWebhook = CSWebhook(name: string, webhookName: string, rule: Rule, register: Register, nsSelector: string)

  datatype Endpoint = Endpoint(kind: Kind, path: string)
  datatype ValueForType = ValueForType(validating: string, mutating: string)

  function GeneratePath(prefix: string, gvk: string): string
  {
    "/" + prefix + "-" + gvk
  }

  /** The endpoints a registration serves; none if it is not a valid registration. */
  function Endpoints(register: Register): Option<seq<Endpoint>>
  {
    match register
    case AdmissionRegister(hookType, path) =>
      if hookType == VALIDATING_TYPE then Some([Endpoint(Validating, path)])
      else if hookType == MUTATING_TYPE then Some([Endpoint(Mutating, path)])
      else None
    case ObjectRegister(obj) =>
      if obj.gvk.None? then None
      else
        Some((if obj.isDefaulter then [Endpoint(Mutating, GeneratePath("mutate", obj.gvk.value))] else [])
             + (if obj.isValidator then [Endpoint(Validating, GeneratePath("validate", obj.gvk.value))] else []))
  }

  method GetPaths(obj: ObjectInfo) returns (r: Option<ValueForType>)
    ensures r.None? <==> obj.gvk.None?
    ensures r.Some? ==> (r.value.mutating != "" <==> obj.isDefaulter) && (r.value.validating != "" <==> obj.isValidator)
    ensures r.Some? && obj.isDefaulter ==> r.value.mutating == GeneratePath("mutate", obj.gvk.value)
    ensures r.Some? && obj.isValidator ==> r.value.validating == GeneratePath("validate", obj.gvk.value)
  {
    if obj.gvk.None? {
      return None;
    }
    var result := ValueForType("", "");
    if obj.isDefaulter {
      result := result.(mutating := GeneratePath("mutate", obj.gvk.value));
    }
    if obj.isValidator {
      result := result.(validating := GeneratePath("validate", obj.gvk.value));
    }
    r := Some(result);
  }

  /** A fresh reconciler with one leaf for each endpoint. */
  ghost predicate Serves(leaves: seq<WebhookReconciler>, endpoints: seq<Endpoint>)
  {
    |leaves| == |endpoints|
    && forall i :: 0 <= i < |leaves| ==> leaves[i].kind == endpoints[i].kind && leaves[i].path == endpoints[i].path
  }

  method GetReconciler(register: Register) returns (r: Option<Reconciler>)
    ensures r.None? <==> Endpoints(register).None?
    ensures r.Some? ==> Serves(Leaves(r.value), Endpoints(register).value) && fresh(LeafSet(r.value))
  {
    match register
    case AdmissionRegister(hookType, path) =>
      if hookType == VALIDATING_TYPE {
        var leaf := new WebhookReconciler(Validating, path);
        return Some(Single(leaf));
      } else if hookType == MUTATING_TYPE {
        var leaf := new WebhookReconciler(Mutating, path);
        return Some(Single(leaf));
      }
      return None;
    case ObjectRegister(obj) =>
      var paths := GetPaths(obj);
      if paths.None? {
        return None;
      }
      var reconcilers: seq<Reconciler> := [];
      ghost var leaves: seq<WebhookReconciler> := [];
      if paths.value.mutating != "" {
        var leaf := new WebhookReconciler(Mutating, paths.value.mutating);
        SnocLeaf(reconcilers, leaf);
        reconcilers := reconcilers + [Single(leaf)];
        leaves := leaves + [leaf];
      }
      if paths.value.validating != "" {
        var leaf := new WebhookReconciler(Validating, paths.value.validating);
        SnocLeaf(reconcilers, leaf);
        reconcilers := reconcilers + [Single(leaf)];
        leaves := leaves + [leaf];
      }
      assert Leaves(Composite(reconcilers)) == leaves;
      r := Some(Composite(reconcilers));
  }

  lemma {:induction false} SnocLeaf(rs: seq<Reconciler>, leaf: WebhookReconciler)
    ensures AllLeaves(rs + [Single(leaf)]) == AllLeaves(rs) + [leaf]
  {
    if rs != [] {
      SnocLeaf(rs[1..], leaf);
      assert (rs + [Single(leaf)])[1..] == rs[1..] + [Single(leaf)];
    }
  }

  function LeafFor(webhook: CSWebhook, e: Endpoint): Leaf
  {
    Leaf(e.kind, e.path, webhook.name, webhook.webhookName, webhook.rule, webhook.nsSelector)
  }

  function LeavesFor(webhook: CSWebhook, endpoints: seq<Endpoint>): (s: seq<Leaf>)
    ensures |s| == |endpoints|
    ensures forall i :: 0 <= i < |endpoints| ==> s[i] == LeafFor(webhook, endpoints[i])
  {
    seq(|endpoints|, i requires 0 <= i < |endpoints| => LeafFor(webhook, endpoints[i]))
  }

  /** The leaves a list of webhooks asks for, up to the first invalid registration. */
  datatype Plan = Plan(leaves: seq<Leaf>, complete: bool)

  function PlanFor(webhooks: seq<CSWebhook>): Plan
  {
    if webhooks == [] then Plan([], true)
    else
      var endpoints := Endpoints(webhooks[0].register);
      if endpoints.None? then Plan([], false)
      else
        var rest := PlanFor(webhooks[1..]);
        Plan(LeavesFor(webhooks[0], endpoints.value) + rest.leaves, rest.complete)
  }

  method ReconcileWebhook(cluster: Cluster, webhook: CSWebhook, namespace: string, caBundle: Bytes) returns (ok: bool)
    modifies cluster
    ensures Step(cluster.Now(), ok)
            == var endpoints := Endpoints(webhook.register);
               if endpoints.None? then Step(old(cluster.Now()), false)
               else PutAll(cluster.faults, old(cluster.Now()), LeavesFor(webhook, endpoints.value), namespace, caBundle)
  {
    var r := GetReconciler(webhook.register);
    if r.None? {
      return false;
    }
    ghost var leaves := LeafSet(r.value);
    Set(r.value, Name(webhook.name), leaves);
    Set(r.value, WebhookName(webhook.webhookName), leaves);
    Set(r.value, RuleIs(webhook.rule), leaves);
    Set(r.value, NsSelector(webhook.nsSelector), leaves);
    ghost var values := LeavesFor(webhook, Endpoints(webhook.register).value);
    assert Values(Leaves(r.value)) == values by {
      forall i | 0 <= i < |values|
        ensures Values(Leaves(r.value))[i] == values[i]
      {
        assert Leaves(r.value)[i] in leaves;
      }
    }
    ok := ReconcileAll(cluster, r.value, namespace, caBundle, values);
  }

  // ---------- the service ----------

  const NEW_SERVICE := Service({}, map[], "", map[], [], "")

  function ServiceKey(namespace: string): ObjectKey
  {
    ObjectKey(namespace, OPERATOR_POD_SERVICE_NAME)
  }

  function Desired(base: Service, owner: Option<string>): Service
  {
    base.(owners := base.owners + (if owner.Some? then {owner.value} else {}),
          annotations := base.annotations[CA_SERVICE_ANNOTATION := "cs-webhook-cert"],
          clusterIP := HEADLESS,
          selector := map["name" := "ibm-common-service-webhook"],
          ports := [ServicePort("TCP", SERVICE_PORT, OPERATOR_POD_PORT)])
  }

  function PutService(f: Faults, s: State, owner: Option<string>, namespace: string): Step
  {
    var key := ServiceKey(namespace);
    var s1 := s.Tick();
    var service := Desired(if key in s.services then s.services[key] else NEW_SERVICE, owner);
    if f(s.calls) then Step(s1, false)
    else if key in s.services && s.services[key] == service then Step(s1, true)
    else if f(s1.calls) || (key in s.services && !MayReplace(s.services[key], service)) then Step(s1.Tick(), false)
    else Step(s1.Tick().(services := s.services[key := service]), true)
  }

  function ServiceStep(f: Faults, s: State, owner: Option<string>, namespace: string): Step
  {
    var key := ServiceKey(namespace);
    var s1 := s.Tick();
    if f(s.calls) then Step(s1, false)
    else if key in s.services && s.services[key].clusterIP != HEADLESS then
      if f(s1.calls) then Step(s1.Tick(), false)
      else PutService(f, s1.Tick().(services := s.services - {key}), owner, namespace)
    else PutService(f, s1, owner, namespace)
  }

  method CreateService(cluster: Cluster, owner: Option<string>, namespace: string) returns (ok: bool)
    modifies cluster
    ensures Step(cluster.Now(), ok) == PutService(cluster.faults, old(cluster.Now()), owner, namespace)
  {
    var key := ServiceKey(namespace);
    var found := cluster.GetService(key);
    match found
    case Fault => ok := false;
    case NotFound =>
      ok := cluster.WriteService(key, Desired(NEW_SERVICE, owner));
    case Found(existing) =>
      var service := Desired(existing, owner);
      if service == existing {
        ok := true;
      } else {
        ok := cluster.WriteService(key, service);
      }
  }

  method ReconcileService(cluster: Cluster, owner: Option<string>, namespace: string) returns (ok: bool)
    modifies cluster
    ensures Step(cluster.Now(), ok) == ServiceStep(cluster.faults, old(cluster.Now()), owner, namespace)
  {
    var key := ServiceKey(namespace);
    var found := cluster.GetService(key);
    match found
    case Fault => return false;
    case NotFound =>
      ok := CreateService(cluster, owner, namespace);
    case Found(service) =>
      if service.clusterIP != HEADLESS {
        ok := cluster.DeleteService(key);
        if !ok {
          return;
        }
      }
      ok := CreateService(cluster, owner, namespace);
  }

  // ---------- a run ----------

  /** What differs from run to run: the owner to record, and the CA bundle found in the
      config map, if it was injected in time. */
  datatype Input = Input(owner: Option<string>, caBundle: Option<Bytes>)

  function ConfigMapKey(namespace: string): ObjectKey
  {
    ObjectKey(namespace, CA_CONFIG_MAP)
  }

  const NEW_CONFIG_MAP := ConfigMap(map[CA_CONFIG_MAP_ANNOTATION := "true"], "")

  function ConfigMapStep(f: Faults, s: State, namespace: string): Step
  {
    var key := ConfigMapKey(namespace);
    if f(s.calls) then Step(s.Tick(), false)
    else Step(s.Tick().(configMaps := if key in s.configMaps then s.configMaps else s.configMaps[key := NEW_CONFIG_MAP]), true)
  }

  function Reconciled(f: Faults, s: State, webhooks: seq<CSWebhook>, input: Input, namespace: string): Step
  {
    var service := ServiceStep(f, s, input.owner, namespace);
    if !service.ok then service
    else
      var configMap := ConfigMapStep(f, service.state, namespace);
      if !configMap.ok then configMap
      else if input.caBundle.None? then Step(configMap.state, false)
      else
        var plan := PlanFor(webhooks);
        var r := PutAll(f, configMap.state, plan.leaves, namespace, input.caBundle.value);
        Step(r.state, r.ok && plan.complete)
  }

  class CSWebhookConfig {
    var webhooks: seq<CSWebhook>

    constructor ()
      ensures webhooks == []
    {
      webhooks := [];
    }

    method AddWebhook(webhook: CSWebhook)
      modifies this
      ensures webhooks == old(webhooks) + [webhook]
    {
      webhooks := webhooks + [webhook];
    }

    method Reconcile(cluster: Cluster, input: Input, namespace: string) returns (ok: bool)
      modifies cluster
      ensures Step(cluster.Now(), ok) == Reconciled(cluster.faults, old(cluster.Now()), webhooks, input, namespace)
    {
      ok := ReconcileService(cluster, input.owner, namespace);
      if !ok {
        return;
      }
      var created := cluster.CreateConfigMap(ConfigMapKey(namespace), NEW_CONFIG_MAP);
      if created.Failed? {
        return false;
      }
      if input.caBundle.None? {
        return false;
      }
      var caBundle := input.caBundle.value;
      ghost var f, s, all := cluster.faults, cluster.Now(), PlanFor(webhooks).leaves;
      ghost var rest := all;
      assert webhooks[0..] == webhooks;
      for i := 0 to |webhooks|
        invariant rest == PlanFor(webhooks[i..]).leaves
        invariant PlanFor(webhooks).complete == PlanFor(webhooks[i..]).complete
        invariant PutAll(f, cluster.Now(), rest, namespace, caBundle) == PutAll(f, s, all, namespace, caBundle)
      {
        assert webhooks[i..][1..] == webhooks[i + 1..];
        ghost var endpoints := Endpoints(webhooks[i].register);
        if endpoints.Some? {
          rest := PlanFor(webhooks[i + 1..]).leaves;
          PutAllConcat(f, cluster.Now(), LeavesFor(webhooks[i], endpoints.value), rest, namespace, caBundle);
        }
        ok := ReconcileWebhook(cluster, webhooks[i], namespace, caBundle);
        if !ok {
          return;
        }
      }
      ok := true;
    }
  }
}
