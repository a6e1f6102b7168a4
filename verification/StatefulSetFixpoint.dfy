/**
 When repeated merging of the same override reaches its fixpoint, and overrides for which two merges are not enough.
 */
module StatefulSetFixpoint {
  import opened Wrappers
  import opened Ordering
  import opened PodMerge
  import opened PodMergeLaws
  import opened MountLaws
  import opened VolumeLaws
  import opened StatefulSetLaws
  import opened StatefulSetOnce
  import KM = KeyedMerge

  // ---- Containers ----

  /** Merged once more, the merged mounts of a container that both sides have keep their keys. */
  ghost predicate MountsSettle(x: seq<Container>, o: seq<Container>) {
    var mx, mo := ByKey(x, ContainerKey), ByKey(o, ContainerKey);
    forall k :: k in mx && k in mo ==>
      KeysKept(Mounts(mx[k].volumeMounts, mo[k].volumeMounts), mo[k].volumeMounts)
  }

  /** After a merge no variable of the override is new. */
  lemma NothingNew(a: seq<EnvVar>, b: seq<EnvVar>)
    ensures NewVariablesSingle(Envs(a, b), b)
  {
    EnvLaws();
    KM.MergeIsListing(a, b, EnvRule());
  }

  lemma OrderlyAfterMerge(a: Container, b: Container, m: map<string, Container>)
    requires b.name in m && (m[b.name] == MergeContainer(a, b) || m[b.name] == b)
    ensures m[b.name] == MergeContainer(a, b) ==>
              (ContainerOrderly(m, b) <==> KeysKept(Mounts(a.volumeMounts, b.volumeMounts), b.volumeMounts))
    ensures m[b.name] == b ==> ContainerOrderly(m, b)
  {
    hide Envs, Mounts, KeysKept;
    NothingNew(a.env, b.env);
    SelfKept(b.volumeMounts);
  }

  lemma OrderlyAfterMerges(x: seq<Container>, o: seq<Container>)
    ensures ContainersOrderly(Containers(x, o), o) <==> MountsSettle(x, o)
  {
    var mx, mo := ByKey(x, ContainerKey), ByKey(o, ContainerKey);
    ContainerKeepsName();
    KM.MergeIsListing(x, o, ContainerRule());
    var m := KM.Overlay(mx, mo, MergeContainer);
    assert ByKey(Containers(x, o), ContainerKey) == m;
    hide Containers, ContainerOrderly, ByKey, MergeContainer, KeysKept, Mounts;
    forall k | k in mo
      ensures ContainerOrderly(m, mo[k]) <==>
              (k in mx ==> KeysKept(Mounts(mx[k].volumeMounts, mo[k].volumeMounts), mo[k].volumeMounts))
    {
      assert mo[k].name == k;
      OrderlyAfterMerge(if k in mx then mx[k] else mo[k], mo[k], m);
    }
  }

  /** For all containers: they settle at the second merge exactly when their mounts do. */
  lemma ContainersSettleIff(x: seq<Container>, o: seq<Container>)
    ensures var twice := Containers(Containers(x, o), o);
            Containers(twice, o) == twice <==> MountsSettle(x, o)
  {
    ContainersOnceIff(Containers(x, o), o);
    OrderlyAfterMerges(x, o);
    hide Containers, ContainersOrderly, MountsSettle;
  }

  /** Keys kept by the first merge are kept by all: then the mounts have settled. */
  lemma KeptSettles(x: seq<Container>, o: seq<Container>)
    requires SharedKeysKept(x, o)
    ensures MountsSettle(x, o)
  {
    var mx, mo := ByKey(x, ContainerKey), ByKey(o, ContainerKey);
    hide ByKey, KeysKept, Mounts;
    forall k | k in mx && k in mo ensures KeysKept(Mounts(mx[k].volumeMounts, mo[k].volumeMounts), mo[k].volumeMounts) {
      KeptAgain(mx[k].volumeMounts, mo[k].volumeMounts, Mounts(mx[k].volumeMounts, mo[k].volumeMounts));
    }
  }

  // ---- The whole spec ----

  ghost predicate AllMountsSettle(x: StatefulSetSpec, o: StatefulSetSpec) {
    && MountsSettle(x.template.containers, o.template.containers)
    && MountsSettle(x.template.initContainers, o.template.initContainers)
  }

  /** After one merge selectors are orderly, and volumes and containers are exactly when they settle. */
  lemma OrderlyMerged(x: StatefulSetSpec, o: StatefulSetSpec)
    ensures var once := StatefulSetSpecs(x, o);
            Orderly(once, o) <==>
            VolumesOrderly(Volumes(x.template.volumes, o.template.volumes), o.template.volumes) && AllMountsSettle(x, o)
  {
    hide Volumes, Containers, Tolerations, HostAliases, DNSConfig, Topology, OptionalFields, Claims;
    hide ContainersOrderly, VolumesOrderly, MountsSettle;
    LabelSelectorsSettle(x.selector, o.selector);
    LabelSelectorsOnceIff(LabelSelectors(x.selector, o.selector), o.selector);
    hide LabelSelectors, SelectorOrderly;
    OrderlyAfterMerges(x.template.containers, o.template.containers);
    OrderlyAfterMerges(x.template.initContainers, o.template.initContainers);
  }

  lemma VolumesOrderlyMerged(x: seq<Volume>, o: seq<Volume>)
    ensures VolumesOrderly(Volumes(x, o), o) <==> VolumesCompatible(x, o)
    ensures VolumesOrderly(Volumes(Volumes(x, o), o), o)
  {
    hide Volumes, VolumesOrderly, VolumesCompatible;
    var once := Volumes(x, o);
    VolumesSettleIff(x, o);
    VolumesOnceIff(once, o);
    VolumesSettleLate(x, o);
    VolumesOnceIff(Volumes(once, o), o);
  }

  /**
   The reconcile loop reaches a fixpoint: for all specs and overrides the third merge equals the second exactly when the
   override's own volumes are compatible and the merged mounts keep their keys.
   */
  lemma MergeFixpointIff(x: StatefulSetSpec, o: StatefulSetSpec)
    ensures var twice := StatefulSetSpecs(StatefulSetSpecs(x, o), o);
            StatefulSetSpecs(twice, o) == twice
            <==>
            VolumesCompatible(x.template.volumes, o.template.volumes) && AllMountsSettle(x, o)
  {
    hide StatefulSetSpecs, Orderly, Volumes, VolumesOrderly, VolumesCompatible, AllMountsSettle;
    MergeOnceIff(StatefulSetSpecs(x, o), o);
    OrderlyMerged(x, o);
    VolumesOrderlyMerged(x.template.volumes, o.template.volumes);
  }

  lemma VolumesOf(x: StatefulSetSpec, o: StatefulSetSpec)
    ensures StatefulSetSpecs(x, o).template.volumes == Volumes(x.template.volumes, o.template.volumes)
  {}

  /** The fourth merge equals the third, whatever the volumes, exactly when the mounts merged twice keep their keys. */
  lemma MergeFixpointLate(x: StatefulSetSpec, o: StatefulSetSpec)
    ensures var once := StatefulSetSpecs(x, o);
            var thrice := StatefulSetSpecs(StatefulSetSpecs(once, o), o);
            StatefulSetSpecs(thrice, o) == thrice <==> AllMountsSettle(once, o)
  {
    VolumesOf(x, o);
    hide StatefulSetSpecs, Orderly, Volumes, VolumesOrderly, AllMountsSettle;
    var once := StatefulSetSpecs(x, o);
    MergeOnceIff(StatefulSetSpecs(once, o), o);
    OrderlyMerged(once, o);
    VolumesOrderlyMerged(x.template.volumes, o.template.volumes);
  }

  /** Mount keys that the first merge keeps leave the volumes as the only obstacle, and none for the fourth merge. */
  lemma KeptKeysSettle(x: StatefulSetSpec, o: StatefulSetSpec)
    requires SharedKeysKept(x.template.containers, o.template.containers)
    requires SharedKeysKept(x.template.initContainers, o.template.initContainers)
    ensures AllMountsSettle(x, o) && AllMountsSettle(StatefulSetSpecs(x, o), o)
  {
    KeptSettles(x.template.containers, o.template.containers);
    KeptSettles(x.template.initContainers, o.template.initContainers);
    KeptStays(x.template.containers, o.template.containers);
    KeptStays(x.template.initContainers, o.template.initContainers);
    KeptSettles(Containers(x.template.containers, o.template.containers), o.template.containers);
    KeptSettles(Containers(x.template.initContainers, o.template.initContainers), o.template.initContainers);
    hide MountsSettle, Containers;
  }

  lemma KeptStays(x: seq<Container>, o: seq<Container>)
    requires SharedKeysKept(x, o)
    ensures SharedKeysKept(Containers(x, o), o)
  {
    var mx, mo := ByKey(x, ContainerKey), ByKey(o, ContainerKey);
    ContainerKeepsName();
    KM.MergeIsListing(x, o, ContainerRule());
    var m := KM.Overlay(mx, mo, MergeContainer);
    assert ByKey(Containers(x, o), ContainerKey) == m;
    hide Containers, ByKey, KeysKept, Mounts, Ports, Envs, Devices, StringSlices, OptionalFields;
    forall k | k in m && k in mo ensures KeysKept(m[k].volumeMounts, mo[k].volumeMounts) {
      if k in mx {
        KeptAgain(mx[k].volumeMounts, mo[k].volumeMounts, Mounts(mx[k].volumeMounts, mo[k].volumeMounts));
      } else {
        SelfKept(mo[k].volumeMounts);
      }
    }
  }

  // ---- Overrides that have not settled after two merges ----

  function BlankTemplate(): PodTemplateSpec {
    PodTemplateSpec(map[], map[], [], [], [], map[], map[], None, [], [], None, None)
  }

  function BlankSpec(): StatefulSetSpec { StatefulSetSpec(map[], None, BlankTemplate(), []) }

  /** Two volumes of one name: an empty directory, then a secret that projects one key twice. */
  function SlowVolumes(): seq<Volume> {
    [Volume("v", VolumeSource(Some(map[]), None, None, map[])),
     Volume("v", VolumeSource(None, Some(Projection(map[], [KeyToPath("k", map["path" := "a"]),
                                                            KeyToPath("k", map["path" := "b"])])),
                              None, map[]))]
  }

  /** The third merge of this override differs from the second. */
  lemma SlowOverride()
    ensures var o := BlankSpec().(template := BlankTemplate().(volumes := SlowVolumes()));
            var twice := StatefulSetSpecs(StatefulSetSpecs(BlankSpec(), o), o);
            StatefulSetSpecs(twice, o) != twice
  {
    var o := BlankSpec().(template := BlankTemplate().(volumes := SlowVolumes()));
    var vs := SlowVolumes();
    assert ByKey(vs, VolumeKey)["v"] == vs[1] by { assert vs[..1] == [vs[0]]; }
    var items := RewrittenItems(vs[1].source);
    assert ItemKey(items[0]) == ItemKey(items[1]);
    assert !Compatible(vs[0], vs);
    assert vs[0] in vs && VolumeKey(vs[0]) !in ByKey<Volume>([], VolumeKey);
    MergeFixpointIff(BlankSpec(), o);
  }

  function Mounting(mounts: seq<VolumeMount>): Container {
    Container("c", map[], [], [], [], [], mounts, [], None, None, None, None, None)
  }

  function MountingSpec(mounts: seq<VolumeMount>): StatefulSetSpec {
    BlankSpec().(template := BlankTemplate().(containers := [Mounting(mounts)]))
  }

  lemma OneContainer(c: Container)
    ensures ByKey([c], ContainerKey) == map[c.name := c]
  {
    assert [c][..0] == [];
  }

  /** Mounts whose joined keys collide twice over: the third merge differs from the second here too. */
  lemma CollidingMounts()
    ensures var x, o := MountingSpec([FIRST, SECOND]), MountingSpec([OVER_FIRST, OVER_SECOND]);
            var twice := StatefulSetSpecs(StatefulSetSpecs(x, o), o);
            StatefulSetSpecs(twice, o) != twice
  {
    var a, b := [FIRST, SECOND], [OVER_FIRST, OVER_SECOND];
    OneContainer(Mounting(a));
    OneContainer(Mounting(b));
    MountsArrange(a, b);
    WitnessOnce(Mounts(a, b));
    hide ByKey, KeysKept, Mounts, IsMountMerge;
    var mx, mo := ByKey([Mounting(a)], ContainerKey), ByKey([Mounting(b)], ContainerKey);
    assert "c" in mx && "c" in mo && mx["c"].volumeMounts == a && mo["c"].volumeMounts == b;
    assert !MountsSettle([Mounting(a)], [Mounting(b)]);
    hide MountsSettle;
    MergeFixpointIff(MountingSpec(a), MountingSpec(b));
  }
}
