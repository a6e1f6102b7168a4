/** Exactly when one merge of the override is already final. */
module StatefulSetOnce {
  import opened Wrappers
  import opened Ordering
  import opened PodMerge
  import opened PodMergeLaws
  import opened ExtendMerge
  import opened VolumeLaws
  import opened StatefulSetLaws
  import opened Arrangement
  import opened MountLaws
  import KM = KeyedMerge

  // ---- Containers ----

  /** The variable has a value or a source, not both. */
  predicate SingleSource(e: EnvVar) { e.value == "" || e.valueFrom.None? }

  ghost predicate AllSingle(env: seq<EnvVar>) { forall i :: 0 <= i < |env| ==> SingleSource(env[i]) }

  /** The keyed lists of the container are in key order without repetition. */
  ghost predicate InKeyOrder(c: Container) {
    && StrictlySorted(c.ports, PortKey) && StrictlySorted(c.env, EnvKey)
    && StrictlySorted(c.volumeMounts, MountKey) && StrictlySorted(c.volumeDevices, DeviceKey)
  }

  lemma EnvStable(e: EnvVar)
    ensures MergeEnv(e, e) == e <==> SingleSource(e)
  {}

  lemma EnvTwice(x: EnvVar, e: EnvVar)
    ensures MergeEnv(MergeEnv(x, e), e) == MergeEnv(x, e)
  {}

  /** No variable that only the override has comes with both a value and a source. */
  ghost predicate NewVariablesSingle(a: seq<EnvVar>, b: seq<EnvVar>) {
    forall k :: k in ByKey(b, EnvKey) && k !in ByKey(a, EnvKey) ==> SingleSource(ByKey(b, EnvKey)[k])
  }

  /** Exactly when Envs absorbs: no new variable has both a value and a source. */
  lemma EnvsAbsorbIff(a: seq<EnvVar>, b: seq<EnvVar>)
    ensures Envs(Envs(a, b), b) == Envs(a, b) <==> NewVariablesSingle(a, b)
  {
    EnvLaws();
    KM.MergeTwiceIff(a, b, EnvRule());
    hide Envs, ByKey;
    var ma, mb := ByKey(a, EnvKey), ByKey(b, EnvKey);
    forall k | k in mb ensures KM.Stable(ma, mb, EnvRule(), k) <==> (k in ma || SingleSource(mb[k])) {
      EnvStable(mb[k]);
      if k in ma { EnvTwice(ma[k], mb[k]); }
    }
  }

  lemma PortsWithSelfIff(xs: seq<Port>)
    ensures Ports(xs, xs) == xs <==> StrictlySorted(xs, PortKey)
  {
    PortLaws();
    KM.MergeSelfIff(xs, PortRule());
  }

  lemma EnvsWithSelfIff(xs: seq<EnvVar>)
    ensures Envs(xs, xs) == xs <==> StrictlySorted(xs, EnvKey) && AllSingle(xs)
  {
    EnvLaws();
    KM.MergeSelfIff(xs, EnvRule());
    hide Envs;
    forall i | 0 <= i < |xs| ensures MergeEnv(xs[i], xs[i]) == xs[i] <==> SingleSource(xs[i]) { EnvStable(xs[i]); }
  }

  lemma DevicesWithSelfIff(xs: seq<VolumeDevice>)
    ensures Devices(xs, xs) == xs <==> StrictlySorted(xs, DeviceKey)
  {
    DeviceLaws();
    KM.MergeSelfIff(xs, DeviceRule());
  }

  /**
   A container only the override has is final exactly when its lists are in key order and its variables have one
   source.
   */
  lemma ContainerWithSelfIff(c: Container)
    ensures MergeContainer(c, c) == c <==> InKeyOrder(c) && AllSingle(c.env)
  {
    hide Ports, Envs, Mounts, Devices, StringSlices, OptionalFields;
    PortsWithSelfIff(c.ports);
    EnvsWithSelfIff(c.env);
    MountsWithSelfIff(c.volumeMounts);
    DevicesWithSelfIff(c.volumeDevices);
    Union(c.fields, c.fields);
    StringSlicesAbsorb(c.command, c.command);
    StringSlicesAbsorb(c.args, c.args);
    OptionalFieldsAbsorb(c.livenessProbe, c.livenessProbe);
    OptionalFieldsAbsorb(c.readinessProbe, c.readinessProbe);
    OptionalFieldsAbsorb(c.startupProbe, c.startupProbe);
    OptionalFieldsAbsorb(c.lifecycle, c.lifecycle);
    OptionalFieldsAbsorb(c.securityContext, c.securityContext);
  }

  /**
   A container both sides have is final after one merge exactly when its new variables and its mount keys allow it.
   */
  lemma ContainerTwiceIff(a: Container, b: Container)
    ensures MergeContainer(MergeContainer(a, b), b) == MergeContainer(a, b)
            <==>
            NewVariablesSingle(a.env, b.env) && KeysKept(a.volumeMounts, b.volumeMounts)
  {
    ContainerAbsorbs(a, b);
    EnvsAbsorbIff(a.env, b.env);
    MountsOnceIff(a.volumeMounts, b.volumeMounts);
    hide Ports, Envs, Mounts, Devices, StringSlices, OptionalFields, NewVariablesSingle, KeysKept;
  }

  /** What the last override of a container name must look like for one merge to be final. */
  ghost predicate ContainerOrderly(mx: map<string, Container>, b: Container) {
    if b.name in mx then
      NewVariablesSingle(mx[b.name].env, b.env) && KeysKept(mx[b.name].volumeMounts, b.volumeMounts)
    else
      InKeyOrder(b) && AllSingle(b.env)
  }

  ghost predicate ContainersOrderly(x: seq<Container>, o: seq<Container>) {
    var mx, mo := ByKey(x, ContainerKey), ByKey(o, ContainerKey);
    forall k :: k in mo ==> ContainerOrderly(mx, mo[k])
  }

  lemma ContainerOrderlyIff(mx: map<string, Container>, mo: map<string, Container>, k: string)
    requires k in mo && mo[k].name == k
    ensures KM.Stable(mx, mo, ContainerRule(), k) <==> ContainerOrderly(mx, mo[k])
  {
    hide MergeContainer, NewVariablesSingle, InKeyOrder, AllSingle, KeysKept;
    if k in mx { ContainerTwiceIff(mx[k], mo[k]); } else { ContainerWithSelfIff(mo[k]); }
  }

  lemma ContainersOnceIff(x: seq<Container>, o: seq<Container>)
    ensures Containers(Containers(x, o), o) == Containers(x, o) <==> ContainersOrderly(x, o)
  {
    ContainerKeepsName();
    KM.MergeTwiceIff(x, o, ContainerRule());
    var mx, mo := ByKey(x, ContainerKey), ByKey(o, ContainerKey);
    assert Containers(Containers(x, o), o) == Containers(x, o) <==> KM.AllStable(mx, mo, ContainerRule());
    hide Containers, ContainerOrderly, KM.Stable, ByKey, MergeContainer;
    forall k | k in mo ensures KM.Stable(mx, mo, ContainerRule(), k) <==> ContainerOrderly(mx, mo[k]) {
      ContainerOrderlyIff(mx, mo, k);
    }
  }

  // ---- Volumes ----

  predicate Within(a: Fields, b: Fields) { forall k :: k in a ==> k in b && b[k] == a[k] }

  lemma WithinIff(a: Fields, b: Fields)
    ensures b + a == b <==> Within(a, b)
  {
    if b + a == b { forall k | k in a ensures k in b && b[k] == a[k] { assert (b + a)[k] == a[k]; } }
  }

  /** The items of `a` are among those of `b`, which repeats no key. */
  ghost predicate ItemsWithin(a: seq<KeyToPath>, b: seq<KeyToPath>) {
    var ma, mb := ByKey(a, ItemKey), ByKey(b, ItemKey);
    DistinctKeys(b, ItemKey) && forall k :: k in ma ==> k in mb && Within(ma[k].fields, mb[k].fields)
  }

  lemma OverlayItemsIff(ma: map<string, KeyToPath>, mb: map<string, KeyToPath>)
    requires KeyedMap(ma, ItemKey) && KeyedMap(mb, ItemKey)
    ensures KM.Overlay(mb, ma, MergeItem) == mb <==>
            forall k :: k in ma ==> k in mb && Within(ma[k].fields, mb[k].fields)
  {
    var m := KM.Overlay(mb, ma, MergeItem);
    forall k | k in ma && k in mb ensures MergeItem(mb[k], ma[k]) == mb[k] <==> Within(ma[k].fields, mb[k].fields) {
      assert ItemKey(mb[k]) == k && ItemKey(ma[k]) == k;
      WithinIff(ma[k].fields, mb[k].fields);
    }
    if m == mb {
      forall k | k in ma ensures k in mb && Within(ma[k].fields, mb[k].fields) { assert k in m && m[k] == mb[k]; }
    }
  }

  /** A listing is the sorted list exactly when that list repeats no key and has the listed entries. */
  lemma ListingIsSortIff<T>(merged: seq<T>, m: map<string, T>, b: seq<T>, key: T -> string)
    requires IsListing(merged, m, key)
    ensures merged == StableSort(b, key) <==> DistinctKeys(b, key) && m == ByKey(b, key)
  {
    if DistinctKeys(b, key) {
      SortIsListing(b, key);
      hide StableSort;
      if m == ByKey(b, key) { ListingUnique(merged, StableSort(b, key), m, key); }
    } else if merged == StableSort(b, key) {
      StrictIsDistinct(merged, key);
      SortedDistinct(b, key);
    }
  }

  lemma ItemsListing(b: seq<KeyToPath>, a: seq<KeyToPath>)
    ensures IsListing(Items(b, a), KM.Overlay(ByKey(b, ItemKey), ByKey(a, ItemKey), MergeItem), ItemKey)
  {
    ItemLaws();
    KM.MergeIsListing(b, a, ItemRule());
  }

  lemma ItemsEchoIff(b: seq<KeyToPath>, a: seq<KeyToPath>)
    ensures Items(StableSort(b, ItemKey), a) == StableSort(b, ItemKey) <==> ItemsWithin(a, b)
  {
    hide Items, StableSort, ByKey, KM.Overlay, IsListing;
    var ma, mb := ByKey(a, ItemKey), ByKey(b, ItemKey);
    ItemsTidy(b, a);
    ItemsListing(b, a);
    OverlayItemsIff(ma, mb);
    ListingIsSortIff(Items(b, a), KM.Overlay(mb, ma, MergeItem), b, ItemKey);
  }

  ghost predicate ProjectionWithin(a: Projection, b: Projection) {
    Within(a.fields, b.fields) && ItemsWithin(a.items, b.items)
  }

  lemma ProjectionEchoIff(b: Projection, a: Projection)
    ensures var t := TidyProjection(Some(b)).value;
            TidyProjection(Some(MergeProjection(t, a))) == Some(t) <==> ProjectionWithin(a, b)
  {
    var t := TidyProjection(Some(b)).value;
    ProjectionAbsorbs(b, a);
    WithinIff(a.fields, b.fields);
    ItemsEchoIff(b.items, a.items);
    ItemsTidy(b.items, a.items);
    hide Items, StableSort, ItemsWithin;
  }

  /** The last override of its name adds nothing to the volume. */
  ghost predicate Echoes(v: VolumeSource, b: VolumeSource) {
    if v.emptyDir.Some? && b.emptyDir.Some? then Within(b.emptyDir.value, v.emptyDir.value)
    else if v.secret.Some? && b.secret.Some? then ProjectionWithin(b.secret.value, v.secret.value)
    else if v.configMap.Some? && b.configMap.Some? then ProjectionWithin(b.configMap.value, v.configMap.value)
    else TidySource(b) == TidySource(v)
  }

  lemma EchoesIff(v: Volume, b: Volume)
    ensures TidyVolume(MergeVolume(TidyVolume(v), b)) == TidyVolume(v) <==> Echoes(v.source, b.source)
  {
    hide Items, MergeProjection, ProjectionWithin;
    TidyTwice(v);
    var s, o := v.source, b.source;
    if s.emptyDir.Some? && o.emptyDir.Some? {
      WithinIff(o.emptyDir.value, s.emptyDir.value);
    } else if s.secret.Some? && o.secret.Some? {
      ProjectionEchoIff(s.secret.value, o.secret.value);
    } else if s.configMap.Some? && o.configMap.Some? {
      ProjectionEchoIff(s.configMap.value, o.configMap.value);
    }
  }

  /**
   Volumes the original has: the last override of the name is of a shared kind or repeats no item key.
   Volumes only the override has: the last override of the name adds nothing to them.
   */
  ghost predicate VolumesOrderly(x: seq<Volume>, o: seq<Volume>) {
    var mx, mo := ByKey(x, VolumeKey), ByKey(o, VolumeKey);
    && (forall v :: v in x ==> Compatible(v, o))
    && (forall v :: v in o && v.name !in mx ==> v.name in mo && Echoes(v.source, mo[v.name].source))
  }

  /** Merged in place, a volume of the original is final exactly when it is compatible. */
  lemma InPlaceIff(o: seq<Volume>, v: Volume)
    ensures Quiet(VolumeInPlace(o)(v), VolumeInPlace(o)) <==> Compatible(v, o)
  {
    hide MergeVolume, TidySource;
    if v.name in ByKey(o, VolumeKey) {
      var b := ByKey(o, VolumeKey)[v.name];
      if SharedKind(v.source, b.source) { SharedAbsorbs(v, b); } else { ReplacedQuietIff(v, b); }
    } else {
      TidyTwice(v);
    }
  }

  lemma AppendedIff(o: seq<Volume>, v: Volume)
    requires v in o
    ensures v.name in ByKey(o, VolumeKey)
    ensures Quiet(TidyVolume(v), VolumeInPlace(o)) <==> Echoes(v.source, ByKey(o, VolumeKey)[v.name].source)
  {
    var i :| 0 <= i < |o| && o[i] == v;
    ByKeyHas(o, VolumeKey, i);
    hide MergeVolume, TidySource, Echoes;
    EchoesIff(v, ByKey(o, VolumeKey)[v.name]);
  }

  lemma VolumesOnceIff(x: seq<Volume>, o: seq<Volume>)
    ensures Volumes(Volumes(x, o), o) == Volumes(x, o) <==> VolumesOrderly(x, o)
  {
    VolumeStepLaws(o);
    ExtendTwiceIff(x, o, VolumeKey, VolumeInPlace(o), TidyVolume);
    hide Compatible, Echoes, StepVolume, TidyVolume;
    forall v | v in x ensures Quiet(VolumeInPlace(o)(v), VolumeInPlace(o)) <==> Compatible(v, o) { InPlaceIff(o, v); }
    forall v | v in o
      ensures v.name in ByKey(o, VolumeKey)
      ensures Quiet(TidyVolume(v), VolumeInPlace(o)) <==> Echoes(v.source, ByKey(o, VolumeKey)[v.name].source)
    {
      AppendedIff(o, v);
    }
  }

  // ---- Label selectors ----

  /** The first requirement for its key adds nothing to the requirement. */
  predicate Repeats(q: Requirement, first: Requirement) {
    (first.operator == "" || first.operator == q.operator) && forall v :: v in first.values ==> v in q.values
  }

  ghost predicate RequirementsOrderly(x: seq<Requirement>, o: seq<Requirement>) {
    forall q :: q in o && q.key !in ByKey(x, RequirementKey) ==>
      var first := RequirementByKey(o, q.key); first.Some? && Repeats(q, first.value)
  }

  lemma ValuesIff(values: seq<string>, more: seq<string>)
    ensures var sorted := StableSort(values, Itself);
            StableSort(StringSlices(sorted, more), Itself) == sorted <==> forall v :: v in more ==> v in values
  {
    var sorted := StableSort(values, Itself);
    var merged := StringSlices(sorted, more);
    SortedMembers(values, Itself);
    SortedMembers(merged, Itself);
    if forall v :: v in more ==> v in values {
      StringSlicesIdle(sorted, more);
      StableSortSorts(values, Itself);
      StableSortIdle(sorted, Itself);
    }
    hide StableSort;
  }

  lemma RepeatsIff(o: seq<Requirement>, q: Requirement)
    requires q in o
    ensures var first := RequirementByKey(o, q.key);
            first.Some? && (Quiet(SortedValues(q), RequirementInPlace(o)) <==> Repeats(q, first.value))
  {
    hide StableSort, RequirementByKey, StringSlices;
    ValuesIff(q.values, RequirementByKey(o, q.key).value.values);
  }

  lemma RequirementsOnceIff(x: seq<Requirement>, o: seq<Requirement>)
    ensures Requirements(Requirements(x, o), o) == Requirements(x, o) <==> RequirementsOrderly(x, o)
  {
    RequirementLaws(o);
    ExtendTwiceIff(x, o, RequirementKey, RequirementInPlace(o), SortedValues);
    forall q | q in o
      ensures var first := RequirementByKey(o, q.key);
              first.Some? && (Quiet(SortedValues(q), RequirementInPlace(o)) <==> Repeats(q, first.value))
    {
      RepeatsIff(o, q);
    }
    hide StableSort, RequirementByKey, Repeats;
  }

  ghost predicate SelectorOrderly(x: Option<LabelSelector>, o: Option<LabelSelector>) {
    x.Some? && o.Some? ==> RequirementsOrderly(x.value.matchExpressions, o.value.matchExpressions)
  }

  lemma LabelSelectorsOnceIff(x: Option<LabelSelector>, o: Option<LabelSelector>)
    ensures LabelSelectors(LabelSelectors(x, o), o) == LabelSelectors(x, o) <==> SelectorOrderly(x, o)
  {
    hide Requirements, RequirementsOrderly;
    if x.Some? && o.Some? {
      Union(x.value.matchLabels, o.value.matchLabels);
      RequirementsOnceIff(x.value.matchExpressions, o.value.matchExpressions);
    }
  }

  // ---- The whole spec ----

  ghost predicate TemplateOrderly(x: PodTemplateSpec, o: PodTemplateSpec) {
    && ContainersOrderly(x.containers, o.containers) && ContainersOrderly(x.initContainers, o.initContainers)
    && VolumesOrderly(x.volumes, o.volumes)
  }

  /** An override one merge of which is final. */
  ghost predicate Orderly(x: StatefulSetSpec, o: StatefulSetSpec) {
    TemplateOrderly(x.template, o.template) && SelectorOrderly(x.selector, o.selector)
  }

  lemma TemplateOnceIff(x: PodTemplateSpec, o: PodTemplateSpec)
    ensures PodTemplateSpecs(PodTemplateSpecs(x, o), o) == PodTemplateSpecs(x, o) <==> TemplateOrderly(x, o)
  {
    hide Volumes, Containers, Tolerations, HostAliases, DNSConfig, Topology, OptionalFields;
    hide ContainersOrderly, VolumesOrderly;
    Union(x.annotations, o.annotations);
    Union(x.labels, o.labels);
    Union(x.fields, o.fields);
    Union(x.nodeSelector, o.nodeSelector);
    OptionalFieldsAbsorb(x.affinity, o.affinity);
    VolumesOnceIff(x.volumes, o.volumes);
    ContainersOnceIff(x.containers, o.containers);
    ContainersOnceIff(x.initContainers, o.initContainers);
    TolerationsAbsorb(x.tolerations, o.tolerations);
    HostAliasesAbsorb(x.hostAliases, o.hostAliases);
    DNSConfigAbsorbs(x.dnsConfig, o.dnsConfig);
    TopologyAbsorbs(x.topology, o.topology);
  }

  /** For all specs and overrides, the second merge equals the first exactly for an orderly override. */
  lemma MergeOnceIff(x: StatefulSetSpec, o: StatefulSetSpec)
    ensures StatefulSetSpecs(StatefulSetSpecs(x, o), o) == StatefulSetSpecs(x, o) <==> Orderly(x, o)
  {
    hide PodTemplateSpecs, LabelSelectors, Claims, TemplateOrderly, SelectorOrderly;
    Union(x.fields, o.fields);
    LabelSelectorsOnceIff(x.selector, o.selector);
    ClaimsAbsorb(x.claims, o.claims);
    TemplateOnceIff(x.template, o.template);
  }

  /** Unique keys everywhere, single-source variables and new containers in key order are enough. */
  ghost predicate Tidy(x: StatefulSetSpec, o: StatefulSetSpec) {
    && DistinctKeys(o.template.volumes, VolumeKey)
    && (forall v :: v in o.template.volumes ==> DistinctKeys(RewrittenItems(v.source), ItemKey))
    && (o.selector.Some? ==> DistinctKeys(o.selector.value.matchExpressions, RequirementKey))
    && ContainersOrderly(x.template.containers, o.template.containers)
    && ContainersOrderly(x.template.initContainers, o.template.initContainers)
  }

  lemma EchoesItself(v: VolumeSource)
    requires DistinctKeys(RewrittenItems(v), ItemKey)
    ensures Echoes(v, v)
  {}

  lemma {:induction false} OnlyRequirement(o: seq<Requirement>, i: nat)
    requires DistinctKeys(o, RequirementKey) && i < |o|
    ensures RequirementByKey(o, o[i].key) == Some(o[i])
  {
    if i > 0 {
      assert RequirementKey(o[0]) != RequirementKey(o[i]);
      OnlyRequirement(o[1..], i - 1);
    }
  }

  lemma TidyIsOrderly(x: StatefulSetSpec, o: StatefulSetSpec)
    requires Tidy(x, o)
    ensures Orderly(x, o)
  {
    hide ContainersOrderly, Echoes;
    var vs, mo := o.template.volumes, ByKey(o.template.volumes, VolumeKey);
    forall v | v in x.template.volumes ensures Compatible(v, vs) {
      if v.name in mo { var i := ByKeyFrom(vs, VolumeKey, v.name); assert vs[i] in vs; }
    }
    forall v | v in vs ensures v.name in mo && Echoes(v.source, mo[v.name].source) {
      var i :| 0 <= i < |vs| && vs[i] == v;
      DistinctByKey(vs, VolumeKey, i);
      EchoesItself(v.source);
    }
    if o.selector.Some? {
      var qs := o.selector.value.matchExpressions;
      forall q | q in qs ensures RequirementByKey(qs, q.key) == Some(q) {
        var i :| 0 <= i < |qs| && qs[i] == q;
        OnlyRequirement(qs, i);
      }
    }
  }
}
