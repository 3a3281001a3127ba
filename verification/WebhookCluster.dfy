/** The API server as the reconciler sees it: stored objects by key, and calls any of
    which may fail. A failed call changes nothing. */
module WebhookCluster {
  type Bytes = string
  type Faults = nat -> bool

  datatype Kind = Mutating | Validating
  datatype ConfigKey = ConfigKey(kind: Kind, name: string)
  datatype ObjectKey = ObjectKey(namespace: string, name: string)

  datatype Rule = Rule(operations: seq<string>, apiGroups: seq<string>, apiVersions: seq<string>,
                       resources: seq<string>, scope: string)
  datatype ServiceReference = ServiceReference(namespace: string, name: string, path: string, port: int)
  datatype WebhookEntry = WebhookEntry(
    name: string, sideEffects: string, caBundle: Bytes, service: ServiceReference, rules: seq<Rule>,
    matchPolicy: string, reviewVersions: seq<string>, failurePolicy: string, timeoutSeconds: int, nsSelector: string)
  datatype WebhookConfiguration = WebhookConfiguration(webhooks: seq<WebhookEntry>, metadata: string)

  datatype ServicePort = ServicePort(protocol: string, port: int, targetPort: int)
  datatype Service = Service(
    owners: set<string>, annotations: map<string, string>, clusterIP: string,
    selector: map<string, string>, ports: seq<ServicePort>, rest: string)
  datatype ConfigMap = ConfigMap(annotations: map<string, string>, rest: string)

  /** What is stored, and how many calls have been made so far. */
  datatype State = State(
    configs: map<ConfigKey, WebhookConfiguration>, services: map<ObjectKey, Service>,
    configMaps: map<ObjectKey, ConfigMap>, calls: nat)
  {
    function Tick(): State { this.(calls := calls + 1) }
  }

  datatype Reply<+T> = Fault | NotFound | Found(value: T)
  datatype Written = Failed | AlreadyExists | Done

  /** The cluster IP of a stored service cannot be changed. */
  predicate MayReplace(existing: Service, updated: Service)
  {
    existing.clusterIP == updated.clusterIP
  }

  class Cluster {
    var configs: map<ConfigKey, WebhookConfiguration>
    var services: map<ObjectKey, Service>
    var configMaps: map<ObjectKey, ConfigMap>
    var calls: nat
    const faults: Faults

    constructor (s: State, faults: Faults)
      ensures Now() == s && this.faults == faults
    {
      configs, services, configMaps, calls := s.configs, s.services, s.configMaps, s.calls;
      this.faults := faults;
    }

    function Now(): State
      reads this
    {
      State(configs, services, configMaps, calls)
    }

    method GetConfig(key: ConfigKey) returns (r: Reply<WebhookConfiguration>)
      modifies this`calls
      ensures Now() == old(Now()).Tick()
      ensures r == if faults(old(calls)) then Fault else if key in configs then Found(configs[key]) else NotFound
    {
      r := if faults(calls) then Fault else if key in configs then Found(configs[key]) else NotFound;
      calls := calls + 1;
    }

    method WriteConfig(key: ConfigKey, config: WebhookConfiguration) returns (ok: bool)
      modifies this`calls, this`configs
      ensures ok <==> !faults(old(calls))
      ensures Now() == if ok then old(Now()).Tick().(configs := old(configs)[key := config]) else old(Now()).Tick()
    {
      ok := !faults(calls);
      calls := calls + 1;
      if ok {
        configs := configs[key := config];
      }
    }

    method GetService(key: ObjectKey) returns (r: Reply<Service>)
      modifies this`calls
      ensures Now() == old(Now()).Tick()
      ensures r == if faults(old(calls)) then Fault else if key in services then Found(services[key]) else NotFound
    {
      r := if faults(calls) then Fault else if key in services then Found(services[key]) else NotFound;
      calls := calls + 1;
    }

    method WriteService(key: ObjectKey, service: Service) returns (ok: bool)
      modifies this`calls, this`services
      ensures ok <==> !faults(old(calls)) && (key in old(services) ==> MayReplace(old(services)[key], service))
      ensures Now() == if ok then old(Now()).Tick().(services := old(services)[key := service]) else old(Now()).Tick()
    {
      ok := !faults(calls) && (key in services ==> MayReplace(services[key], service));
      calls := calls + 1;
      if ok {
        services := services[key := service];
      }
    }

    method DeleteService(key: ObjectKey) returns (ok: bool)
      modifies this`calls, this`services
      ensures ok <==> !faults(old(calls))
      ensures Now() == if ok then old(Now()).Tick().(services := old(services) - {key}) else old(Now()).Tick()
    {
      ok := !faults(calls);
      calls := calls + 1;
      if ok {
        services := services - {key};
      }
    }

    method CreateConfigMap(key: ObjectKey, configMap: ConfigMap) returns (r: Written)
      modifies this`calls, this`configMaps
      ensures r == if faults(old(calls)) then Failed else if key in old(configMaps) then AlreadyExists else Done
      ensures Now() == if r.Done? then old(Now()).Tick().(configMaps := old(configMaps)[key := configMap])
                       else old(Now()).Tick()
    {
      r := if faults(calls) then Failed else if key in configMaps then AlreadyExists else Done;
      calls := calls + 1;
      if r.Done? {
        configMaps := configMaps[key := configMap];
      }
    }
  }
}
