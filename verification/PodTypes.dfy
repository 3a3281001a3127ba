/** The values and objects the pod webhook works on. Everything it neither reads nor
    writes is kept as an opaque payload. */
module PodTypes {
  import opened Results

  type Payload = string
  type Labels = map<string, string>

  datatype Volume = Volume(name: string, source: Payload)
  datatype EnvVar = EnvVar(name: string, value: Payload)
  datatype EnvFromSource = EnvFromSource(source: Payload)
  datatype VolumeMount = VolumeMount(name: string, mountPath: string, rest: Payload)
  datatype Container = Container(
    env: seq<EnvVar>, envFrom: seq<EnvFromSource>, volumeMounts: seq<VolumeMount>, rest: Payload)

  /** An option compares equal to a literal without a value only if it has none itself. */
  datatype DNSOption = DNSOption(name: string, value: Option<string>)
  datatype DNSConfig = DNSConfig(options: seq<DNSOption>, rest: Payload)

  datatype LabelSelector = LabelSelector(expression: Payload)
  datatype PodPresetSpec = PodPresetSpec(
    selector: LabelSelector, env: seq<EnvVar>, envFrom: seq<EnvFromSource>,
    volumes: seq<Volume>, volumeMounts: seq<VolumeMount>)
  datatype PodPreset = PodPreset(name: string, namespace: string, resourceVersion: string, spec: PodPresetSpec)

  /** The whole value of a pod. */
  datatype PodValue = PodValue(
    labels: Labels, annotations: map<string, string>, volumes: seq<Volume>, dnsPolicy: string,
    dnsConfig: Option<DNSConfig>, containers: seq<Container>, rest: Payload)

  function VolumeName(v: Volume): string { v.name }
  function EnvName(v: EnvVar): string { v.name }
  function MountName(v: VolumeMount): string { v.name }
  function MountPath(v: VolumeMount): string { v.mountPath }

  function SpecVolumes(p: PodPreset): seq<Volume> { p.spec.volumes }
  function SpecEnv(p: PodPreset): seq<EnvVar> { p.spec.env }
  function SpecEnvFrom(p: PodPreset): seq<EnvFromSource> { p.spec.envFrom }
  function SpecMounts(p: PodPreset): seq<VolumeMount> { p.spec.volumeMounts }

  /** A variable holding a preset, reached through a pointer. */
  class PodPresetVar {
    var value: PodPreset

    /** A declared variable holds no particular preset yet. */
    constructor Declare()
    {
    }
  }

  /** The presets a list of pointers stands for. */
  ghost predicate PointTo(refs: seq<PodPresetVar>, presets: seq<PodPreset>)
    reads refs
  {
    |refs| == |presets| && forall i :: 0 <= i < |refs| ==> refs[i].value == presets[i]
  }

  /** The variable of the loop over a pod's containers. */
  class ContainerVar {
    var value: Container

    constructor Declare()
    {
    }
  }

  class PodDNSConfig {
    var options: seq<DNSOption>
    var rest: Payload

    constructor ()
      ensures options == [] && rest == ""
    {
      options, rest := [], "";
    }

    function Value(): DNSConfig
      reads this
    {
      DNSConfig(options, rest)
    }
  }

  class Pod {
    var labels: Labels
    var annotations: map<string, string>
    var volumes: seq<Volume>
    var dnsPolicy: string
    var dnsConfig: PodDNSConfig?
    var containers: array<Container>
    var rest: Payload

    function DNS(): Option<DNSConfig>
      reads this, dnsConfig
    {
      if dnsConfig == null then None else Some(dnsConfig.Value())
    }

    function Value(): PodValue
      reads this, containers, dnsConfig
    {
      PodValue(labels, annotations, volumes, dnsPolicy, DNS(), containers[..], rest)
    }
  }
}
