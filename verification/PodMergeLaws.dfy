/** Repeated merging of the same override: the element rules and the keyed lists built on them. */
module PodMergeLaws {
  import opened Wrappers
  import opened PodMerge
  import KM = KeyedMerge

  lemma Union(a: Fields, b: Fields)
    ensures (a + b) + b == a + b && b + b == b
  {}

  lemma OptionalFieldsAbsorb(a: Option<Fields>, b: Option<Fields>)
    ensures OptionalFields(OptionalFields(a, b), b) == OptionalFields(a, b) && OptionalFields(b, b) == b
  {
    if a.Some? && b.Some? { Union(a.value, b.value); }
    if b.Some? { Union(b.value, b.value); }
  }

  lemma {:induction false} StringSlicesIdle(a: seq<string>, b: seq<string>)
    requires forall s :: s in b ==> s in a
    ensures StringSlices(a, b) == a
  {
    if b != [] {
      forall s | s in b[..|b| - 1] ensures s in b {}
      StringSlicesIdle(a, b[..|b| - 1]);
    }
  }

  lemma StringSlicesAbsorb(a: seq<string>, b: seq<string>)
    ensures StringSlices(StringSlices(a, b), b) == StringSlices(a, b) && StringSlices(b, b) == b
  {
    StringSlicesIdle(StringSlices(a, b), b);
    StringSlicesIdle(b, b);
  }

  ghost function PortRule(): KM.Rule<Port> { KM.Rule(PortKey, MergePort, (p: Port) => true) }
  ghost function EnvRule(): KM.Rule<EnvVar> { KM.Rule(EnvKey, MergeEnv, (e: EnvVar) => true) }
  ghost function DeviceRule(): KM.Rule<VolumeDevice> { KM.Rule(DeviceKey, MergeDevice, (d: VolumeDevice) => true) }
  ghost function ItemRule(): KM.Rule<KeyToPath> { KM.Rule(ItemKey, MergeItem, (i: KeyToPath) => true) }
  ghost function TopologyRule(): KM.Rule<TopologySpreadConstraint> {
    KM.Rule(TopologyKey, MergeTopology, (t: TopologySpreadConstraint) => true)
  }
  ghost function ClaimRule(): KM.Rule<Claim> { KM.Rule(ClaimKey, MergeClaim, (c: Claim) => true) }

  lemma PortLaws() ensures KM.KeepsKey(PortRule()) && KM.Absorbs(PortRule()) && KM.SelfSame(PortRule()) {
    forall a: Port, b: Port {:trigger MergePort(a, b)} ensures MergePort(MergePort(a, b), b) == MergePort(a, b) {
      Union(a.fields, b.fields);
    }
    forall b: Port ensures MergePort(b, b) == b { Union(b.fields, b.fields); }
  }

  lemma EnvLaws() ensures KM.KeepsKey(EnvRule()) && KM.Absorbs(EnvRule()) {}

  lemma DeviceLaws() ensures KM.KeepsKey(DeviceRule()) && KM.Absorbs(DeviceRule()) && KM.SelfSame(DeviceRule()) {}

  lemma ItemLaws() ensures KM.KeepsKey(ItemRule()) && KM.Absorbs(ItemRule()) && KM.SelfSame(ItemRule()) {
    forall a: KeyToPath, b: KeyToPath | a.key == b.key
      ensures MergeItem(MergeItem(a, b), b) == MergeItem(a, b) && MergeItem(b, b) == b
    { Union(a.fields, b.fields); }
  }

  lemma TopologyLaws()
    ensures KM.KeepsKey(TopologyRule()) && KM.Absorbs(TopologyRule()) && KM.SelfSame(TopologyRule())
  {
    forall a: TopologySpreadConstraint, b: TopologySpreadConstraint {:trigger MergeTopology(a, b)}
      ensures MergeTopology(MergeTopology(a, b), b) == MergeTopology(a, b)
    { Union(a.fields, b.fields); }
    forall b: TopologySpreadConstraint ensures MergeTopology(b, b) == b { Union(b.fields, b.fields); }
  }

  lemma ClaimLaws() ensures KM.KeepsKey(ClaimRule()) && KM.Absorbs(ClaimRule()) && KM.SelfSame(ClaimRule()) {
    forall a: Claim, b: Claim {:trigger MergeClaim(a, b)} ensures MergeClaim(MergeClaim(a, b), b) == MergeClaim(a, b) {
      Union(a.fields, b.fields);
      StringSlicesAbsorb(a.accessModes, b.accessModes);
    }
    forall b: Claim ensures MergeClaim(b, b) == b {
      Union(b.fields, b.fields);
      StringSlicesAbsorb(b.accessModes, b.accessModes);
    }
  }

  lemma PortsAbsorb(a: seq<Port>, b: seq<Port>)
    ensures Ports(Ports(a, b), b) == Ports(a, b)
  { PortLaws(); KM.MergeAbsorbs(a, b, PortRule()); }

  lemma DevicesAbsorb(a: seq<VolumeDevice>, b: seq<VolumeDevice>)
    ensures Devices(Devices(a, b), b) == Devices(a, b)
  { DeviceLaws(); KM.MergeAbsorbs(a, b, DeviceRule()); }

  ghost function ContainerRule(): KM.Rule<Container> { KM.Rule(ContainerKey, MergeContainer, (c: Container) => true) }

  lemma ContainerKeepsName() ensures KM.KeepsKey(ContainerRule()) {}

  /** Everything of a container but its environment and its mounts absorbs a repeated override. */
  lemma ContainerAbsorbs(a: Container, b: Container)
    ensures var env, mounts := Envs(a.env, b.env), Mounts(a.volumeMounts, b.volumeMounts);
            MergeContainer(MergeContainer(a, b), b) ==
            MergeContainer(a, b).(env := Envs(env, b.env), volumeMounts := Mounts(mounts, b.volumeMounts))
  {
    hide Ports, Envs, Mounts, Devices, StringSlices, OptionalFields;
    Union(a.fields, b.fields);
    StringSlicesAbsorb(a.command, b.command);
    StringSlicesAbsorb(a.args, b.args);
    PortsAbsorb(a.ports, b.ports);
    DevicesAbsorb(a.volumeDevices, b.volumeDevices);
    OptionalFieldsAbsorb(a.livenessProbe, b.livenessProbe);
    OptionalFieldsAbsorb(a.readinessProbe, b.readinessProbe);
    OptionalFieldsAbsorb(a.startupProbe, b.startupProbe);
    OptionalFieldsAbsorb(a.lifecycle, b.lifecycle);
    OptionalFieldsAbsorb(a.securityContext, b.securityContext);
  }
}
