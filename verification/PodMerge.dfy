/**
 The StatefulSet override merge of pkg/util/merge as functions on values.

 A group of fields that follow the rule "take the override's value unless it is Go's zero value"
 is one map from field name to value in which zero-valued fields are absent; merging two such
 groups is map union. Fields the code never takes from the override (a container's EnvFrom, a
 secret volume's Optional, ephemeral containers) are not represented. Slices and maps that Go leaves nil or makes empty
 are the same empty value here, except where the code asks for nil.

 The `Items` of secret and config map volumes are the one kind of list that the code leaves in map
 iteration order inside a sorted list; they are represented in key order, equal keys in their
 original order, so that two lists here are equal exactly when a stable sort makes them so.
 */
module PodMerge {
  import opened Wrappers
  import opened Ordering
  import KeyedMerge
  import ExtendMerge

  type Fields = map<string, string>

  datatype Port = Port(name: string, fields: Fields)
  datatype EnvVar = EnvVar(name: string, value: string, valueFrom: Option<string>)
  datatype VolumeDevice = VolumeDevice(name: string, devicePath: string)
  datatype VolumeMount = VolumeMount(name: string, mountPath: string, subPath: string, fields: Fields)
  datatype Container = Container(name: string, fields: Fields, command: seq<string>, args: seq<string>,
                                 ports: seq<Port>, env: seq<EnvVar>, volumeMounts: seq<VolumeMount>,
                                 volumeDevices: seq<VolumeDevice>, livenessProbe: Option<Fields>,
                                 readinessProbe: Option<Fields>, startupProbe: Option<Fields>,
                                 lifecycle: Option<Fields>, securityContext: Option<Fields>)
  datatype KeyToPath = KeyToPath(key: string, fields: Fields)
  datatype Projection = Projection(fields: Fields, items: seq<KeyToPath>)
  datatype VolumeSource = VolumeSource(emptyDir: Option<Fields>, secret: Option<Projection>,
                                       configMap: Option<Projection>, other: Fields)
  datatype Volume = Volume(name: string, source: VolumeSource)
  datatype Toleration = Toleration(key: string, fields: Fields)
  datatype HostAlias = HostAlias(ip: string, hostnames: seq<string>)
  datatype TopologySpreadConstraint = TopologySpreadConstraint(topologyKey: string, fields: Fields)
  datatype PodDNSConfig = PodDNSConfig(fields: Fields, nameservers: seq<string>, searches: seq<string>)
  datatype PodTemplateSpec = PodTemplateSpec(annotations: Fields, labels: Fields, volumes: seq<Volume>,
                                             containers: seq<Container>, initContainers: seq<Container>,
                                             fields: Fields, nodeSelector: Fields, affinity: Option<Fields>,
                                             tolerations: seq<Toleration>, hostAliases: seq<HostAlias>,
                                             dnsConfig: Option<PodDNSConfig>,
                                             topology: Option<seq<TopologySpreadConstraint>>)
  datatype Requirement = Requirement(key: string, operator: string, values: seq<string>)
  datatype LabelSelector = LabelSelector(matchLabels: Fields, matchExpressions: seq<Requirement>)
  datatype Claim = Claim(name: string, fields: Fields, accessModes: seq<string>)
  datatype StatefulSetSpec = StatefulSetSpec(fields: Fields, selector: Option<LabelSelector>,
                                             template: PodTemplateSpec, claims: seq<Claim>)

  /** The distinct elements of the second list that are not in the first, behind the first. */
  function StringSlices(slice1: seq<string>, slice2: seq<string>): (r: seq<string>)
    ensures slice1 <= r
    ensures forall s :: s in r <==> s in slice1 || s in slice2
    ensures forall i, j :: |slice1| <= i < |r| && 0 <= j < i ==> r[j] != r[i]
  {
    if slice2 == [] then slice1
    else
      var last := slice2[|slice2| - 1];
      assert slice2 == slice2[..|slice2| - 1] + [last];
      var r := StringSlices(slice1, slice2[..|slice2| - 1]);
      if last in r then r else r + [last]
  }

  /** Pointers to structs whose fields are overridden one by one: probes, lifecycles, security contexts, affinities. */
  function OptionalFields(original: Option<Fields>, override: Option<Fields>): (r: Option<Fields>) {
    if override.None? then original
    else if original.None? then override
    else Some(original.value + override.value)
  }

  function OverrideText(original: string, override: string): (r: string) {
    if override != "" then override else original
  }

  // Keys of the merged lists.
  function PortKey(p: Port): string { p.name }
  function EnvKey(e: EnvVar): string { e.name }
  function DeviceKey(d: VolumeDevice): string { d.name }
  function MountKey(m: VolumeMount): string { m.name + "_" + m.mountPath + "_" + m.subPath }
  function ContainerKey(c: Container): string { c.name }
  function ItemKey(i: KeyToPath): string { i.key }
  function VolumeKey(v: Volume): string { v.name }
  function TolerationKey(t: Toleration): string { t.key }
  function AliasKey(a: HostAlias): string { a.ip }
  function TopologyKey(t: TopologySpreadConstraint): string { t.topologyKey }
  function ClaimKey(c: Claim): string { c.name }
  function RequirementKey(r: Requirement): string { r.key }
  function Itself(s: string): string { s }

  // Merges of two list elements with the same key.
  function MergePort(original: Port, override: Port): (r: Port) {
    Port(OverrideText(original.name, override.name), original.fields + override.fields)
  }

  function MergeEnv(original: EnvVar, override: EnvVar): (r: EnvVar) {
    var valued := if override.value != "" then original.(value := override.value, valueFrom := None) else original;
    if override.valueFrom.Some? then valued.(valueFrom := override.valueFrom, value := "") else valued
  }

  function MergeDevice(original: VolumeDevice, override: VolumeDevice): (r: VolumeDevice) {
    VolumeDevice(OverrideText(original.name, override.name), OverrideText(original.devicePath, override.devicePath))
  }

  function MergeMount(original: VolumeMount, override: VolumeMount): (r: VolumeMount) {
    VolumeMount(OverrideText(original.name, override.name), OverrideText(original.mountPath, override.mountPath),
                OverrideText(original.subPath, override.subPath), original.fields + override.fields)
  }

  ghost function Ports(original: seq<Port>, override: seq<Port>): (r: seq<Port>) {
    KeyedMerge.Merge(original, override, PortKey, MergePort)
  }

  ghost function Envs(original: seq<EnvVar>, override: seq<EnvVar>): (r: seq<EnvVar>) {
    KeyedMerge.Merge(original, override, EnvKey, MergeEnv)
  }

  ghost function Devices(original: seq<VolumeDevice>, override: seq<VolumeDevice>): (r: seq<VolumeDevice>) {
    KeyedMerge.Merge(original, override, DeviceKey, MergeDevice)
  }

  ghost function Mounts(original: seq<VolumeMount>, override: seq<VolumeMount>): (r: seq<VolumeMount>) {
    KeyedMerge.Merge(original, override, MountKey, MergeMount)
  }

  ghost function MergeContainer(original: Container, override: Container): (r: Container) {
    Container(OverrideText(original.name, override.name), original.fields + override.fields,
              StringSlices(original.command, override.command), StringSlices(original.args, override.args),
              Ports(original.ports, override.ports), Envs(original.env, override.env),
              Mounts(original.volumeMounts, override.volumeMounts),
              Devices(original.volumeDevices, override.volumeDevices),
              OptionalFields(original.livenessProbe, override.livenessProbe),
              OptionalFields(original.readinessProbe, override.readinessProbe),
              OptionalFields(original.startupProbe, override.startupProbe),
              OptionalFields(original.lifecycle, override.lifecycle),
              OptionalFields(original.securityContext, override.securityContext))
  }

  ghost function Containers(original: seq<Container>, override: seq<Container>): (r: seq<Container>) {
    KeyedMerge.Merge(original, override, ContainerKey, MergeContainer)
  }

  function MergeItem(original: KeyToPath, override: KeyToPath): (r: KeyToPath) {
    if original.key != override.key then original else KeyToPath(original.key, original.fields + override.fields)
  }

  ghost function Items(original: seq<KeyToPath>, override: seq<KeyToPath>): (r: seq<KeyToPath>) {
    KeyedMerge.Merge(original, override, ItemKey, MergeItem)
  }

  function TidyProjection(p: Option<Projection>): (r: Option<Projection>) {
    if p.None? then None else Some(p.value.(items := StableSort(p.value.items, ItemKey)))
  }

  function TidySource(s: VolumeSource): (r: VolumeSource) {
    s.(secret := TidyProjection(s.secret), configMap := TidyProjection(s.configMap))
  }

  function TidyVolume(v: Volume): (r: Volume) { v.(source := TidySource(v.source)) }

  ghost function MergeProjection(original: Projection, override: Projection): (r: Projection) {
    Projection(original.fields + override.fields, Items(original.items, override.items))
  }

  /** Both volumes are of a kind that is merged rather than replaced. */
  predicate SharedKind(original: VolumeSource, override: VolumeSource) {
    || (original.emptyDir.Some? && override.emptyDir.Some?)
    || (original.secret.Some? && override.secret.Some?)
    || (original.configMap.Some? && override.configMap.Some?)
  }

  ghost function MergeVolume(original: Volume, override: Volume): (r: Volume) {
    var o, v := original.source, override.source;
    if o.emptyDir.Some? && v.emptyDir.Some? then
      original.(source := o.(emptyDir := Some(o.emptyDir.value + v.emptyDir.value)))
    else if o.secret.Some? && v.secret.Some? then
      original.(source := o.(secret := Some(MergeProjection(o.secret.value, v.secret.value))))
    else if o.configMap.Some? && v.configMap.Some? then
      original.(source := o.(configMap := Some(MergeProjection(o.configMap.value, v.configMap.value))))
    else
      original.(source := v)
  }

  /** What the merge does to a volume that the original has. */
  ghost function StepVolume(override: map<string, Volume>, v: Volume): (r: Volume)
    ensures r.name == v.name
  {
    TidyVolume(if v.name in override then MergeVolume(v, override[v.name]) else v)
  }

  ghost function VolumeInPlace(override: seq<Volume>): (g: Volume -> Volume) {
    (v: Volume) => StepVolume(ByKey(override, VolumeKey), v)
  }

  ghost function Volumes(original: seq<Volume>, override: seq<Volume>): (r: seq<Volume>) {
    ExtendMerge.Extend(original, override, VolumeKey, VolumeInPlace(override), TidyVolume)
  }

  ghost function Tolerations(original: seq<Toleration>, override: seq<Toleration>): (r: seq<Toleration>) {
    Listing(ByKey(original, TolerationKey) + ByKey(override, TolerationKey), TolerationKey)
  }

  function AddAlias(m: map<string, HostAlias>, override: HostAlias): (r: map<string, HostAlias>) {
    if override.ip in m then
      m[override.ip := HostAlias(override.ip, StringSlices(m[override.ip].hostnames, override.hostnames))]
    else m[override.ip := override]
  }

  function AddAliases(m: map<string, HostAlias>, override: seq<HostAlias>): (r: map<string, HostAlias>) {
    if override == [] then m
    else AddAlias(AddAliases(m, override[..|override| - 1]), override[|override| - 1])
  }

  ghost function HostAliases(original: seq<HostAlias>, override: seq<HostAlias>): (r: seq<HostAlias>) {
    Listing(AddAliases(ByKey(original, AliasKey), override), AliasKey)
  }

  function MergeTopology(original: TopologySpreadConstraint, override: TopologySpreadConstraint)
    : (r: TopologySpreadConstraint)
  {
    original.(fields := original.fields + override.fields)
  }

  /** Represented in key order; the code leaves map iteration order. */
  ghost function Topology(original: Option<seq<TopologySpreadConstraint>>,
                          override: Option<seq<TopologySpreadConstraint>>)
    : (r: Option<seq<TopologySpreadConstraint>>)
  {
    if override.None? then original
    else
      var constraints := if original.Some? then original.value else [];
      Some(KeyedMerge.Merge(constraints, override.value, TopologyKey, MergeTopology))
  }

  function DNSConfig(original: Option<PodDNSConfig>, override: Option<PodDNSConfig>): (r: Option<PodDNSConfig>) {
    if override.None? then original
    else if original.None? then override
    else Some(PodDNSConfig(original.value.fields + override.value.fields,
                           StringSlices(original.value.nameservers, override.value.nameservers),
                           StringSlices(original.value.searches, override.value.searches)))
  }

  ghost function PodTemplateSpecs(original: PodTemplateSpec, override: PodTemplateSpec): (r: PodTemplateSpec) {
    PodTemplateSpec(original.annotations + override.annotations, original.labels + override.labels,
                    Volumes(original.volumes, override.volumes),
                    Containers(original.containers, override.containers),
                    Containers(original.initContainers, override.initContainers),
                    original.fields + override.fields, original.nodeSelector + override.nodeSelector,
                    OptionalFields(original.affinity, override.affinity),
                    Tolerations(original.tolerations, override.tolerations),
                    HostAliases(original.hostAliases, override.hostAliases),
                    DNSConfig(original.dnsConfig, override.dnsConfig),
                    Topology(original.topology, override.topology))
  }

  function SortedValues(r: Requirement): (s: Requirement) { r.(values := StableSort(r.values, Itself)) }

  /** The first requirement with the key. */
  function RequirementByKey(rs: seq<Requirement>, key: string): (r: Option<Requirement>)
    ensures r.Some? <==> exists q :: q in rs && q.key == key
    ensures r.Some? ==> r.value in rs && r.value.key == key
    ensures r.Some? ==> exists i :: IsFirst(rs, key, i) && rs[i] == r.value
  {
    if rs == [] then None
    else
      assert rs == [rs[0]] + rs[1..];
      if rs[0].key == key then assert IsFirst(rs, key, 0); Some(rs[0])
      else
        var r := RequirementByKey(rs[1..], key);
        assert r.Some? ==> exists i :: IsFirst(rs[1..], key, i - 1) && IsFirst(rs, key, i) && rs[i] == r.value by {
          if r.Some? {
            var i :| IsFirst(rs[1..], key, i) && rs[1..][i] == r.value;
            assert IsFirst(rs[1..], key, i + 1 - 1) && IsFirst(rs, key, i + 1);
          }
        }
        r
  }

  /** The position of the first requirement with the key. */
  predicate IsFirst(rs: seq<Requirement>, key: string, i: int) {
    0 <= i < |rs| && rs[i].key == key && forall j :: 0 <= j < i ==> rs[j].key != key
  }

  function MergeRequirement(original: Requirement, override: Requirement): (r: Requirement) {
    Requirement(original.key, OverrideText(original.operator, override.operator),
                StringSlices(original.values, override.values))
  }

  function RequirementInPlace(override: seq<Requirement>): (g: Requirement -> Requirement) {
    (r: Requirement) =>
      var o := RequirementByKey(override, r.key);
      SortedValues(if o.Some? then MergeRequirement(r, o.value) else r)
  }

  function Requirements(original: seq<Requirement>, override: seq<Requirement>): (r: seq<Requirement>) {
    ExtendMerge.Extend(original, override, RequirementKey, RequirementInPlace(override), SortedValues)
  }

  /** As written, a nil original drops the override's selector. */
  function LabelSelectors(original: Option<LabelSelector>, override: Option<LabelSelector>)
    : (r: Option<LabelSelector>)
  {
    if override.None? || original.None? then original
    else Some(LabelSelector(original.value.matchLabels + override.value.matchLabels,
                            Requirements(original.value.matchExpressions, override.value.matchExpressions)))
  }

  function MergeClaim(original: Claim, override: Claim): (r: Claim) {
    Claim(original.name, original.fields + override.fields, StringSlices(original.accessModes, override.accessModes))
  }

  ghost function Claims(original: seq<Claim>, override: seq<Claim>): (r: seq<Claim>) {
    KeyedMerge.Merge(original, override, ClaimKey, MergeClaim)
  }

  ghost function StatefulSetSpecs(original: StatefulSetSpec, override: StatefulSetSpec): (r: StatefulSetSpec) {
    StatefulSetSpec(original.fields + override.fields, LabelSelectors(original.selector, override.selector),
                    PodTemplateSpecs(original.template, override.template), Claims(original.claims, override.claims))
  }
}
