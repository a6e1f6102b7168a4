/**
 The loops of pkg/util/merge. Where Go ranges over a map the order is arbitrary: `k :| k in todo`
 picks any remaining key. Every result below is nevertheless one fixed list, except for mounts
 with the same key and for the two lists that are left unsorted.
 */
module MergeLoops {
  import opened Wrappers
  import opened Ordering
  import opened PodMerge
  import opened PodMergeLaws
  import opened Arrangement
  import opened MountLaws
  import opened MergeMeaning
  import EM = ExtendMerge
  import KM = KeyedMerge

  method UnionOfStrings(slice1: seq<string>, slice2: seq<string>) returns (merged: seq<string>)
    ensures merged == StringSlices(slice1, slice2)
  {
    merged := slice1;
    for i := 0 to |slice2|
      invariant merged == StringSlices(slice1, slice2[..i])
    {
      assert slice2[..i + 1][..i] == slice2[..i];
      if slice2[i] !in merged { merged := merged + [slice2[i]]; }
    }
    assert slice2[..|slice2|] == slice2;
  }

  method CreateMap<T>(xs: seq<T>, key: T -> string) returns (m: map<string, T>)
    ensures m == ByKey(xs, key)
  {
    m := map[];
    for i := 0 to |xs|
      invariant m == ByKey(xs[..i], key)
    {
      assert xs[..i + 1][..i] == xs[..i];
      m := m[key(xs[i]) := xs[i]];
    }
    assert xs[..|xs|] == xs;
  }

  ghost function Without<T>(m: map<string, T>, todo: set<string>): map<string, T> { m - todo }

  lemma OneMore<T>(list: seq<T>, m: map<string, T>, todo: set<string>, k: string, key: T -> string)
    requires KeyedMap(m, key) && k in todo && k in m
    requires DistinctKeys(list, key) && ByKey(list, key) == Without(m, todo)
    ensures DistinctKeys(list + [m[k]], key) && ByKey(list + [m[k]], key) == Without(m, todo - {k})
  {
    assert (list + [m[k]])[..|list|] == list;
    forall i | 0 <= i < |list| ensures key(list[i]) != k { ByKeyHas(list, key, i); }
  }

  ghost function Only<T>(m: map<string, T>, todo: set<string>): map<string, T> { m - (m.Keys - todo) }

  /** Ranges over the map and collects its values. */
  method Range<T>(m: map<string, T>) returns (list: seq<T>)
    ensures multiset(list) == multiset(Enumerate(m))
  {
    hide Enumerate;
    list := [];
    var todo := m.Keys;
    assert Only(m, todo) == m;
    while todo != {}
      invariant todo <= m.Keys
      invariant multiset(list) + multiset(Enumerate(Only(m, todo))) == multiset(Enumerate(m))
      decreases todo
    {
      var k :| k in todo;
      EnumerateMinus(Only(m, todo), k);
      assert Only(m, todo) - {k} == Only(m, todo - {k});
      list := list + [m[k]];
      todo := todo - {k};
    }
    assert Only(m, {}) == map[];
    NothingToEnumerate<T>();
  }

  lemma SortedRange<T>(list: seq<T>, m: map<string, T>, key: T -> string)
    requires multiset(list) == multiset(Enumerate(m))
    ensures IsArrangement(StableSort(list, key), m, key)
    ensures KeyedMap(m, key) ==> StableSort(list, key) == Listing(m, key)
  {
    StableSortSorts(list, key);
    SortContents(list, key);
    if KeyedMap(m, key) { KeyedArrangement(StableSort(list, key), m, key); }
  }

  /** Ranges over the map, then sorts by key. */
  method Collect<T>(m: map<string, T>, key: T -> string) returns (sorted: seq<T>)
    ensures IsArrangement(sorted, m, key)
    ensures KeyedMap(m, key) ==> sorted == Listing(m, key)
  {
    var list := Range(m);
    SortedRange(list, m, key);
    sorted := StableSort(list, key);
  }

  lemma NothingToEnumerate<T>()
    ensures Enumerate<T>(map[]) == []
  {}

  method CopyMap<T>(m: map<string, T>) returns (c: map<string, T>)
    ensures c == m
  {
    c := map[];
    var todo := m.Keys;
    while todo != {}
      invariant todo <= m.Keys && c == Without(m, todo)
      decreases todo
    {
      var k :| k in todo;
      c := c[k := m[k]];
      todo := todo - {k};
    }
  }

  lemma OverlayStep<T>(original: map<string, T>, override: map<string, T>, todo: set<string>, k: string, v: T,
                       merge: (T, T) -> T)
    requires k in todo && k in override
    requires v == if k in original then merge(original[k], override[k]) else override[k]
    ensures KM.Overlay(original, Without(override, todo), merge)[k := v] ==
            KM.Overlay(original, Without(override, todo - {k}), merge)
  {
    var before, after := KM.Overlay(original, Without(override, todo), merge),
        KM.Overlay(original, Without(override, todo - {k}), merge);
    forall j | j in after && j != k ensures j in before && after[j] == before[j] {}
  }

  /** Lays the override map over a copy of the original one. */
  method OverlayMaps<T>(original: map<string, T>, override: map<string, T>, merge: (T, T) -> T)
    returns (merged: map<string, T>)
    ensures merged == KM.Overlay(original, override, merge)
  {
    merged := CopyMap(original);
    var todo := override.Keys;
    assert Without(override, todo) == map[];
    assert merged == KM.Overlay(original, map[], merge);
    while todo != {}
      invariant todo <= override.Keys && merged == KM.Overlay(original, Without(override, todo), merge)
      decreases todo
    {
      var k :| k in todo;
      var v := if k in original then merge(original[k], override[k]) else override[k];
      OverlayStep(original, override, todo, k, v, merge);
      merged := merged[k := v];
      todo := todo - {k};
    }
    assert Without(override, {}) == override;
  }

  lemma KeyedOverlay<T(!new)>(original: seq<T>, override: seq<T>, rule: KM.Rule<T>)
    requires KM.KeepsKey(rule) && KM.AllOk(original, rule) && KM.AllOk(override, rule)
    ensures KeyedMap(KM.Overlay(ByKey(original, rule.key), ByKey(override, rule.key), rule.merge), rule.key)
  {
    KM.ByKeyOk(original, rule);
    KM.ByKeyOk(override, rule);
    KM.OverlayOk(ByKey(original, rule.key), ByKey(override, rule.key), rule);
  }

  /** The shape of Envs, VolumeDevices, VolumeMounts and VolumeClaimTemplates. */
  method MergeByKey<T>(original: seq<T>, override: seq<T>, key: T -> string, merge: (T, T) -> T)
    returns (sorted: seq<T>)
    ensures var m := KM.Overlay(ByKey(original, key), ByKey(override, key), merge);
            IsArrangement(sorted, m, key) && (KeyedMap(m, key) ==> sorted == KM.Merge(original, override, key, merge))
  {
    hide KM.Overlay, IsArrangement, KeyedMap;
    var originalMap := CreateMap(original, key);
    var overrideMap := CreateMap(override, key);
    var merged := OverlayMaps(originalMap, overrideMap, merge);
    sorted := Collect(merged, key);
  }

  /** Both ranges of ContainerPortSlicesByName and mergeKeyToPathItems, before any sorting. */
  method RangeBoth<T>(original: map<string, T>, override: map<string, T>, key: T -> string, merge: (T, T) -> T)
    returns (list: seq<T>)
    requires KeyedMap(KM.Overlay(original, override, merge), key)
    ensures DistinctKeys(list, key) && ByKey(list, key) == KM.Overlay(original, override, merge)
  {
    ghost var all := KM.Overlay(original, override, merge);
    ghost var added := override.Keys - original.Keys;
    list := [];
    var todo := original.Keys;
    assert Without(all, todo + added) == map[];
    while todo != {}
      invariant todo <= original.Keys && DistinctKeys(list, key) && ByKey(list, key) == Without(all, todo + added)
      decreases todo
    {
      var k :| k in todo;
      var v := if k in override then merge(original[k], override[k]) else original[k];
      assert v == all[k];
      OneMore(list, all, todo + added, k, key);
      assert (todo + added) - {k} == (todo - {k}) + added;
      list := list + [v];
      todo := todo - {k};
    }
    todo := override.Keys;
    assert {} + added == todo - original.Keys;
    while todo != {}
      invariant todo <= override.Keys && DistinctKeys(list, key)
                && ByKey(list, key) == Without(all, todo - original.Keys)
      decreases todo
    {
      var k :| k in todo;
      ghost var left := todo - original.Keys;
      if k !in original {
        assert override[k] == all[k];
        OneMore(list, all, left, k, key);
        list := list + [override[k]];
      }
      assert left - {k} == (todo - {k}) - original.Keys;
      todo := todo - {k};
    }
    assert todo - original.Keys == {};
    assert Without(all, {}) == all;
  }

  method MergeRanges<T(!new)>(original: seq<T>, override: seq<T>, key: T -> string, merge: (T, T) -> T,
                              ghost rule: KM.Rule<T>)
    returns (list: seq<T>)
    requires rule.key == key && rule.merge == merge && KM.KeepsKey(rule)
    requires KM.AllOk(original, rule) && KM.AllOk(override, rule)
    ensures DistinctKeys(list, key)
    ensures StableSort(list, key) == KM.Merge(original, override, key, merge)
  {
    KeyedOverlay(original, override, rule);
    hide KM.KeepsKey, KM.Overlay;
    var originalMap := CreateMap(original, key);
    var overrideMap := CreateMap(override, key);
    list := RangeBoth(originalMap, overrideMap, key, merge);
    SortIsListing(list, key);
    KM.MergeDetermined(original, override, rule, StableSort(list, key));
  }

  method ContainerPortSlicesByName(original: seq<Port>, override: seq<Port>) returns (sorted: seq<Port>)
    ensures sorted == Ports(original, override)
  {
    PortLaws();
    var list := MergeRanges(original, override, PortKey, MergePort, PortRule());
    sorted := StableSort(list, PortKey);
  }

  /** The one merge whose result keeps the iteration order: some arrangement of the merged items. */
  method MergeKeyToPathItems(original: seq<KeyToPath>, override: seq<KeyToPath>) returns (list: seq<KeyToPath>)
    ensures StableSort(list, ItemKey) == Items(original, override)
    ensures multiset(list) == multiset(Items(original, override))
  {
    ItemLaws();
    list := MergeRanges(original, override, ItemKey, MergeItem, ItemRule());
    SortContents(list, ItemKey);
  }

  /**
   The topology spread constraints are left in map iteration order too: some arrangement of the merged ones. A nil
   override returns the original.
   */
  method MergeTopologyConstraints(original: Option<seq<TopologySpreadConstraint>>,
                                  override: Option<seq<TopologySpreadConstraint>>)
    returns (list: Option<seq<TopologySpreadConstraint>>)
    ensures list.Some? == Topology(original, override).Some?
    ensures override.None? ==> list == original
    ensures override.Some? ==>
              && StableSort(list.value, TopologyKey) == Topology(original, override).value
              && multiset(list.value) == multiset(Topology(original, override).value)
  {
    if override.None? { return original; }
    var constraints := if original.Some? then original.value else [];
    TopologyLaws();
    KeyedOverlay(constraints, override.value, TopologyRule());
    hide KM.Overlay, KeyedMap, IsArrangement;
    var originalMap := CreateMap(constraints, TopologyKey);
    var overrideMap := CreateMap(override.value, TopologyKey);
    var merged := OverlayMaps(originalMap, overrideMap, MergeTopology);
    var elements := Range(merged);
    SortedRange(elements, merged, TopologyKey);
    SortContents(elements, TopologyKey);
    list := Some(elements);
  }

  /**
   Merges one container; every keyed list of it goes through the loops above. All of the result is fixed but the order
   of mounts with the same key.
   */
  method MergeOneContainer(original: Container, override: Container) returns (merged: Container)
    ensures merged == MergeContainer(original, override).(volumeMounts := merged.volumeMounts)
    ensures IsMountMerge(merged.volumeMounts, original.volumeMounts, override.volumeMounts)
    ensures ContainerOver(merged, original, override)
    ensures KeysKept(original.volumeMounts, override.volumeMounts) ==> merged == MergeContainer(original, override)
  {
    hide Ports, Envs, Mounts, Devices, StringSlices, OptionalFields, KM.Merge, IsMountMerge, KeysKept;
    var command := UnionOfStrings(original.command, override.command);
    var args := UnionOfStrings(original.args, override.args);
    var ports := ContainerPortSlicesByName(original.ports, override.ports);
    var env := MergeEnvs(original.env, override.env);
    var mounts := MergeVolumeMounts(original.volumeMounts, override.volumeMounts);
    var devices := MergeVolumeDevices(original.volumeDevices, override.volumeDevices);
    merged := Container(OverrideText(original.name, override.name), original.fields + override.fields,
                        command, args, ports, env, mounts, devices,
                        OptionalFields(original.livenessProbe, override.livenessProbe),
                        OptionalFields(original.readinessProbe, override.readinessProbe),
                        OptionalFields(original.startupProbe, override.startupProbe),
                        OptionalFields(original.lifecycle, override.lifecycle),
                        OptionalFields(original.securityContext, override.securityContext));
    ContainerMeans(original, override);
    MountsMean(mounts, original.volumeMounts, override.volumeMounts);
    hide ListMerged, MountsMerged, Joined, OptionOver, Overridden;
  }

  method MergeEnvs(original: seq<EnvVar>, override: seq<EnvVar>) returns (sorted: seq<EnvVar>)
    ensures sorted == Envs(original, override)
  {
    EnvLaws();
    KeyedOverlay(original, override, EnvRule());
    sorted := MergeByKey(original, override, EnvKey, MergeEnv);
  }

  method MergeVolumeDevices(original: seq<VolumeDevice>, override: seq<VolumeDevice>)
    returns (sorted: seq<VolumeDevice>)
    ensures sorted == Devices(original, override)
  {
    DeviceLaws();
    KeyedOverlay(original, override, DeviceRule());
    sorted := MergeByKey(original, override, DeviceKey, MergeDevice);
  }

  /** In key order, the merged mounts each once; one fixed list when merging keeps the keys. */
  method MergeVolumeMounts(original: seq<VolumeMount>, override: seq<VolumeMount>) returns (sorted: seq<VolumeMount>)
    ensures IsMountMerge(sorted, original, override)
    ensures KeysKept(original, override) ==> sorted == Mounts(original, override)
  {
    KeysKeptIff(original, override);
    hide KM.Overlay, IsArrangement, KeysKept;
    sorted := MergeByKey(original, override, MountKey, MergeMount);
  }

  method MergeVolumeClaimTemplates(original: seq<Claim>, override: seq<Claim>) returns (sorted: seq<Claim>)
    ensures sorted == Claims(original, override)
  {
    ClaimLaws();
    KeyedOverlay(original, override, ClaimRule());
    sorted := MergeByKey(original, override, ClaimKey, MergeClaim);
  }

  /** The same container but for the order of mounts with one key; the very same where merging keeps the keys. */
  ghost predicate SameContainer(r: Container, mx: map<string, Container>, mo: map<string, Container>, k: string)
    requires k in mx || k in mo
  {
    if k in mx && k in mo then
      var a, b := mx[k].volumeMounts, mo[k].volumeMounts;
      && r == MergeContainer(mx[k], mo[k]).(volumeMounts := r.volumeMounts)
      && IsMountMerge(r.volumeMounts, a, b) && (KeysKept(a, b) ==> r == MergeContainer(mx[k], mo[k]))
    else r == if k in mx then mx[k] else mo[k]
  }

  /** As OverlayMaps, with each pair of containers merged by the loops above. */
  method OverlayContainers(original: map<string, Container>, override: map<string, Container>)
    returns (merged: map<string, Container>)
    ensures merged.Keys == original.Keys + override.Keys
    ensures forall k :: k in merged ==> SameContainer(merged[k], original, override, k)
  {
    hide MergeContainer, IsMountMerge, KeysKept;
    merged := CopyMap(original);
    var todo := override.Keys;
    while todo != {}
      invariant todo <= override.Keys && merged.Keys == original.Keys + (override.Keys - todo)
      invariant forall k :: k in merged && k !in todo ==> SameContainer(merged[k], original, override, k)
      invariant forall k :: k in merged && k in todo ==> k in original && merged[k] == original[k]
      decreases todo
    {
      var k :| k in todo;
      var c := override[k];
      if k in original { c := MergeOneContainer(original[k], override[k]); }
      merged := merged[k := c];
      todo := todo - {k};
    }
  }

  /** Containers by name, each name once, in order. */
  ghost predicate IsContainerMerge(r: seq<Container>, original: seq<Container>, override: seq<Container>) {
    var mx, mo := ByKey(original, ContainerKey), ByKey(override, ContainerKey);
    && StrictlySorted(r, ContainerKey)
    && (forall k :: k in ByKey(r, ContainerKey) <==> k in mx || k in mo)
    && (forall k :: k in ByKey(r, ContainerKey) ==> SameContainer(ByKey(r, ContainerKey)[k], mx, mo, k))
  }

  lemma SameName(r: Container, mx: map<string, Container>, mo: map<string, Container>, k: string)
    requires (k in mx || k in mo) && (k in mx ==> mx[k].name == k) && (k in mo ==> mo[k].name == k)
    requires SameContainer(r, mx, mo, k)
    ensures r.name == k
  {}

  method MergeContainers(original: seq<Container>, override: seq<Container>) returns (sorted: seq<Container>)
    ensures IsContainerMerge(sorted, original, override)
  {
    hide SameContainer, ByKey, IsArrangement, Listing, KeyedMap, IsContainerMerge;
    var originalMap := CreateMap(original, ContainerKey);
    var overrideMap := CreateMap(override, ContainerKey);
    var merged := OverlayContainers(originalMap, overrideMap);
    NamesKept(merged, originalMap, overrideMap);
    sorted := Collect(merged, ContainerKey);
    ListedMerge(sorted, merged, original, override);
  }

  lemma NamesKept(merged: map<string, Container>, mx: map<string, Container>, mo: map<string, Container>)
    requires KeyedMap(mx, ContainerKey) && KeyedMap(mo, ContainerKey) && merged.Keys == mx.Keys + mo.Keys
    requires forall k :: k in merged ==> SameContainer(merged[k], mx, mo, k)
    ensures KeyedMap(merged, ContainerKey)
  {
    hide SameContainer;
    forall k | k in merged ensures merged[k].name == k { SameName(merged[k], mx, mo, k); }
  }

  lemma ListedMerge(r: seq<Container>, merged: map<string, Container>, original: seq<Container>,
                    override: seq<Container>)
    requires IsListing(r, merged, ContainerKey)
    requires var mx, mo := ByKey(original, ContainerKey), ByKey(override, ContainerKey);
             merged.Keys == mx.Keys + mo.Keys && forall k :: k in merged ==> SameContainer(merged[k], mx, mo, k)
    ensures IsContainerMerge(r, original, override)
  {
    hide SameContainer, ByKey, StrictlySorted;
  }

  lemma KeptContainer(r: Container, mx: map<string, Container>, mo: map<string, Container>, k: string)
    requires (k in mx || k in mo) && SameContainer(r, mx, mo, k)
    requires k in mx && k in mo ==> KeysKept(mx[k].volumeMounts, mo[k].volumeMounts)
    ensures r == KM.Overlay(mx, mo, MergeContainer)[k]
  {
    hide MergeContainer, KeysKept, IsMountMerge;
  }

  lemma KeptContainers(mr: map<string, Container>, mx: map<string, Container>, mo: map<string, Container>)
    requires forall k :: k in mr <==> k in mx || k in mo
    requires forall k :: k in mr ==> SameContainer(mr[k], mx, mo, k)
    requires forall k :: k in mx && k in mo ==> KeysKept(mx[k].volumeMounts, mo[k].volumeMounts)
    ensures mr == KM.Overlay(mx, mo, MergeContainer)
  {
    hide SameContainer, MergeContainer, KeysKept;
    forall k | k in mr ensures mr[k] == KM.Overlay(mx, mo, MergeContainer)[k] { KeptContainer(mr[k], mx, mo, k); }
  }

  lemma ContainersListing(x: seq<Container>, o: seq<Container>)
    ensures IsListing(Containers(x, o), KM.Overlay(ByKey(x, ContainerKey), ByKey(o, ContainerKey), MergeContainer),
                      ContainerKey)
  {
    ContainerKeepsName();
    KM.MergeIsListing(x, o, ContainerRule());
  }

  lemma MergedMap(r: seq<Container>, original: seq<Container>, override: seq<Container>)
    requires IsContainerMerge(r, original, override)
    requires SharedKeysKept(original, override)
    ensures IsListing(r, KM.Overlay(ByKey(original, ContainerKey), ByKey(override, ContainerKey), MergeContainer),
                      ContainerKey)
  {
    hide MergeContainer, KeysKept, ByKey, SameContainer, KM.Overlay, StrictlySorted;
    KeptContainers(ByKey(r, ContainerKey), ByKey(original, ContainerKey), ByKey(override, ContainerKey));
  }

  /** Where merging keeps the keys of all mounts, that is one fixed list. */
  lemma ContainersDetermined(r: seq<Container>, original: seq<Container>, override: seq<Container>)
    requires IsContainerMerge(r, original, override)
    requires SharedKeysKept(original, override)
    ensures r == Containers(original, override)
  {
    hide *;
    var m := KM.Overlay(ByKey(original, ContainerKey), ByKey(override, ContainerKey), MergeContainer);
    MergedMap(r, original, override);
    ContainersListing(original, override);
    ListingUnique(r, Containers(original, override), m, ContainerKey);
  }

  lemma UnionUpdate<T>(a: map<string, T>, b: map<string, T>, k: string, v: T)
    ensures (a + b)[k := v] == a + b[k := v]
  {}

  lemma UnionKeyed<T>(a: map<string, T>, b: map<string, T>, key: T -> string)
    requires KeyedMap(a, key) && KeyedMap(b, key)
    ensures KeyedMap(a + b, key)
  {}

  method MergeTolerations(original: seq<Toleration>, override: seq<Toleration>) returns (sorted: seq<Toleration>)
    ensures sorted == Tolerations(original, override)
  {
    hide ByKey, KeyedMap, IsArrangement, Listing;
    var m := CreateMap(original, TolerationKey);
    ghost var originalMap := m;
    assert m == originalMap + ByKey(override[..0], TolerationKey) by { NoEntries(override[..0], TolerationKey); }
    for i := 0 to |override|
      invariant m == originalMap + ByKey(override[..i], TolerationKey)
    {
      assert override[..i + 1] == override[..i] + [override[i]];
      ByKeyAppend(override[..i], override[i], TolerationKey);
      UnionUpdate(originalMap, ByKey(override[..i], TolerationKey), override[i].key, override[i]);
      m := m[override[i].key := override[i]];
    }
    assert override[..|override|] == override;
    UnionKeyed(originalMap, ByKey(override, TolerationKey), TolerationKey);
    sorted := Collect(m, TolerationKey);
  }

  lemma NoEntries<T>(xs: seq<T>, key: T -> string)
    requires xs == []
    ensures ByKey(xs, key) == map[]
  {}

  method MergeHostAliases(original: seq<HostAlias>, override: seq<HostAlias>) returns (sorted: seq<HostAlias>)
    ensures sorted == HostAliases(original, override)
  {
    var m := CreateMap(original, AliasKey);
    ghost var originalMap := m;
    for i := 0 to |override|
      invariant m == AddAliases(originalMap, override[..i]) && KeyedMap(m, AliasKey)
    {
      assert override[..i + 1][..i] == override[..i];
      var a := override[i];
      if a.ip in m {
        var hostnames := UnionOfStrings(m[a.ip].hostnames, a.hostnames);
        m := m[a.ip := HostAlias(a.ip, hostnames)];
      } else {
        m := m[a.ip := a];
      }
    }
    assert override[..|override|] == override;
    sorted := Collect(m, AliasKey);
  }

  method MergeOneRequirement(r: Requirement, override: seq<Requirement>) returns (merged: Requirement)
    ensures merged == RequirementInPlace(override)(r)
  {
    merged := r;
    var o := RequirementByKey(override, r.key);
    if o.Some? {
      var values := UnionOfStrings(r.values, o.value.values);
      merged := Requirement(r.key, OverrideText(r.operator, o.value.operator), values);
    }
    merged := merged.(values := StableSort(merged.values, Itself));
  }

  /** The first loop of LabelSelectorRequirements: every original requirement, merged and with sorted values. */
  method KeptRequirements(original: seq<Requirement>, override: seq<Requirement>) returns (list: seq<Requirement>)
    ensures list == EM.Apply(original, RequirementInPlace(override))
  {
    hide SortedValues, RequirementByKey;
    list := [];
    for i := 0 to |original|
      invariant |list| == i && forall j :: 0 <= j < i ==> list[j] == RequirementInPlace(override)(original[j])
    {
      var r := MergeOneRequirement(original[i], override);
      list := list + [r];
    }
  }

  lemma AbsentStep(override: seq<Requirement>, known: map<string, Requirement>, i: nat)
    requires i < |override|
    ensures var before := EM.Absent(override[..i], known, RequirementKey);
            EM.Apply(EM.Absent(override[..i + 1], known, RequirementKey), SortedValues) ==
            if override[i].key in known then EM.Apply(before, SortedValues)
            else EM.Apply(before, SortedValues) + [SortedValues(override[i])]
  {
    assert override[..i + 1][..i] == override[..i];
    var before := EM.Absent(override[..i], known, RequirementKey);
    assert EM.Apply(before + [override[i]], SortedValues) ==
           EM.Apply(before, SortedValues) + [SortedValues(override[i])];
  }

  /** The second loop: the override's requirements with a new key. */
  method AddedRequirements(original: seq<Requirement>, override: seq<Requirement>) returns (list: seq<Requirement>)
    ensures list == EM.Apply(EM.Absent(override, ByKey(original, RequirementKey), RequirementKey), SortedValues)
  {
    ghost var known := ByKey(original, RequirementKey);
    list := [];
    for i := 0 to |override|
      invariant list == EM.Apply(EM.Absent(override[..i], known, RequirementKey), SortedValues)
    {
      var existing := RequirementByKey(original, override[i].key);
      KnownRequirement(original, override[i].key);
      AbsentStep(override, known, i);
      if existing.None? { list := list + [SortedValues(override[i])]; }
    }
    assert override[..|override|] == override;
  }

  method MergeRequirements(original: seq<Requirement>, override: seq<Requirement>) returns (sorted: seq<Requirement>)
    ensures sorted == Requirements(original, override)
  {
    var kept := KeptRequirements(original, override);
    var added := AddedRequirements(original, override);
    sorted := StableSort(kept + added, RequirementKey);
  }

  lemma KnownRequirement(rs: seq<Requirement>, k: string)
    ensures RequirementByKey(rs, k).Some? <==> k in ByKey(rs, RequirementKey)
  {
    if k in ByKey(rs, RequirementKey) { var i := ByKeyFrom(rs, RequirementKey, k); }
    if q :| q in rs && q.key == k {
      var i :| 0 <= i < |rs| && rs[i] == q;
      ByKeyHas(rs, RequirementKey, i);
    }
  }

  method MergeOneProjection(original: Projection, override: Projection) returns (merged: Projection)
    ensures TidyProjection(Some(merged)) == Some(MergeProjection(original, override))
  {
    var items := MergeKeyToPathItems(original.items, override.items);
    merged := Projection(original.fields + override.fields, items);
  }

  lemma MergedIsTidy(a: Projection, b: Projection)
    ensures TidyProjection(Some(MergeProjection(a, b))) == Some(MergeProjection(a, b))
  {
    ItemLaws();
    KM.MergeIsListing(a.items, b.items, ItemRule());
    StrictIsDistinct(Items(a.items, b.items), ItemKey);
    StableSortIdle(Items(a.items, b.items), ItemKey);
  }

  /** One volume, with whatever order its items come out in. */
  method MergeOneVolume(original: Volume, override: Volume) returns (merged: Volume)
    ensures TidyVolume(merged) == TidyVolume(MergeVolume(original, override)) && merged.name == original.name
  {
    hide Items, MergeProjection;
    var o, v := original.source, override.source;
    merged := original;
    if o.emptyDir.Some? && v.emptyDir.Some? {
      merged := original.(source := o.(emptyDir := Some(o.emptyDir.value + v.emptyDir.value)));
    } else if o.secret.Some? && v.secret.Some? {
      var p := MergeOneProjection(o.secret.value, v.secret.value);
      MergedIsTidy(o.secret.value, v.secret.value);
      merged := original.(source := o.(secret := Some(p)));
    } else if o.configMap.Some? && v.configMap.Some? {
      var p := MergeOneProjection(o.configMap.value, v.configMap.value);
      MergedIsTidy(o.configMap.value, v.configMap.value);
      merged := original.(source := o.(configMap := Some(p)));
    } else {
      merged := original.(source := v);
    }
  }

  method KeptVolumes(original: seq<Volume>, override: seq<Volume>) returns (list: seq<Volume>)
    ensures EM.Apply(list, TidyVolume) == EM.Apply(original, VolumeInPlace(override))
  {
    hide MergeVolume, TidySource, ByKey;
    var overrideMap := CreateMap(override, VolumeKey);
    list := [];
    for i := 0 to |original|
      invariant |list| == i && forall j :: 0 <= j < i ==> TidyVolume(list[j]) == VolumeInPlace(override)(original[j])
    {
      var merged := original[i];
      if merged.name in overrideMap { merged := MergeOneVolume(original[i], overrideMap[original[i].name]); }
      list := list + [merged];
    }
  }

  method AddedVolumes(original: seq<Volume>, override: seq<Volume>) returns (list: seq<Volume>)
    ensures list == EM.Absent(override, ByKey(original, VolumeKey), VolumeKey)
  {
    var known := CreateMap(original, VolumeKey);
    list := [];
    for i := 0 to |override|
      invariant list == EM.Absent(override[..i], known, VolumeKey)
    {
      assert override[..i + 1][..i] == override[..i];
      if override[i].name !in known { list := list + [override[i]]; }
    }
    assert override[..|override|] == override;
  }

  lemma SortedVolumes(list: seq<Volume>, kept: seq<Volume>, added: seq<Volume>)
    requires EM.Apply(list, TidyVolume) == kept + added
    ensures EM.Apply(StableSort(list, VolumeKey), TidyVolume) == StableSort(kept + added, VolumeKey)
    ensures Sorted(StableSort(list, VolumeKey), VolumeKey)
  {
    EM.SortApply(list, VolumeKey, TidyVolume);
    StableSortSorts(list, VolumeKey);
  }

  /** Volumes, up to the order of the items inside each volume. */
  method MergeVolumes(original: seq<Volume>, override: seq<Volume>) returns (sorted: seq<Volume>)
    ensures EM.Apply(sorted, TidyVolume) == Volumes(original, override)
    ensures Sorted(sorted, VolumeKey)
  {
    hide TidyVolume, ByKey, VolumeInPlace, EM.Apply, EM.Absent, StableSort;
    var kept := KeptVolumes(original, override);
    var added := AddedVolumes(original, override);
    EM.ApplyConcat(kept, added, TidyVolume);
    SortedVolumes(kept + added, EM.Apply(kept, TidyVolume), EM.Apply(added, TidyVolume));
    sorted := StableSort(kept + added, VolumeKey);
  }
}
