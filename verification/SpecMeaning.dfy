/** What merging the rest of a StatefulSet spec means, and the spec as a whole. */
module SpecMeaning {
  import opened Wrappers
  import opened Ordering
  import opened PodMerge
  import opened PodMergeLaws
  import opened VolumeLaws
  import opened MergeMeaning
  import opened StatefulSetLaws
  import EM = ExtendMerge
  import KM = KeyedMerge

  // ---- Volumes ----

  ghost predicate ItemOver(r: KeyToPath, a: KeyToPath, b: KeyToPath) {
    r.key == a.key && (a.key == b.key ==> Overridden(r.fields, a.fields, b.fields))
  }

  ghost predicate ProjectionOver(r: Projection, a: Projection, b: Projection) {
    Overridden(r.fields, a.fields, b.fields) && ListMerged(r.items, a.items, b.items, ItemKey, ItemOver)
  }

  /**
   The first kind that both volumes have is merged and the rest is the original's; without one the override replaces
   all.
   */
  ghost predicate SourceOver(r: VolumeSource, a: VolumeSource, b: VolumeSource) {
    if a.emptyDir.Some? && b.emptyDir.Some? then
      && r.emptyDir.Some? && Overridden(r.emptyDir.value, a.emptyDir.value, b.emptyDir.value)
      && r.secret == a.secret && r.configMap == a.configMap && r.other == a.other
    else if a.secret.Some? && b.secret.Some? then
      && r.secret.Some? && ProjectionOver(r.secret.value, a.secret.value, b.secret.value)
      && r.emptyDir == a.emptyDir && r.configMap == a.configMap && r.other == a.other
    else if a.configMap.Some? && b.configMap.Some? then
      && r.configMap.Some? && ProjectionOver(r.configMap.value, a.configMap.value, b.configMap.value)
      && r.emptyDir == a.emptyDir && r.secret == a.secret && r.other == a.other
    else r == b
  }

  /** The same but for the order of items, which is by key. */
  ghost predicate SameItems(r: Option<Projection>, p: Option<Projection>) {
    && r.Some? == p.Some?
    && (r.Some? ==> && r.value.fields == p.value.fields && Sorted(r.value.items, ItemKey)
                    && multiset(r.value.items) == multiset(p.value.items))
  }

  ghost predicate SameVolume(r: Volume, v: Volume) {
    && r.name == v.name && r.source.emptyDir == v.source.emptyDir && r.source.other == v.source.other
    && SameItems(r.source.secret, v.source.secret) && SameItems(r.source.configMap, v.source.configMap)
  }

  /** A volume of the original, with the last override of its name over it. */
  ghost predicate KeptVolume(e: Volume, x: Volume, b: seq<Volume>) {
    exists v :: && SameVolume(e, v) && v.name == x.name
                && (!HasKey(b, VolumeKey, x.name) ==> v == x)
                && (forall y :: LastWith(b, VolumeKey, x.name, y) ==> SourceOver(v.source, x.source, y.source))
  }

  /** Every original kept, every new override added, nothing else, and all in order. */
  ghost predicate Extended<T(!new)>(r: seq<T>, a: seq<T>, b: seq<T>, key: T -> string, kept: (T, T) -> bool,
                                    added: (T, T) -> bool) {
    && Sorted(r, key) && |r| == |a| + NewOnes(a, b, key)
    && (forall e :: e in r ==>
          || (exists x :: x in a && kept(e, x))
          || (exists y :: y in b && !HasKey(a, key, key(y)) && added(e, y)))
    && (forall x :: x in a ==> exists e :: e in r && kept(e, x))
    && (forall y :: y in b && !HasKey(a, key, key(y)) ==> exists e :: e in r && added(e, y))
  }

  /** How many elements of b have a key that a lacks. */
  ghost function NewOnes<T>(a: seq<T>, b: seq<T>, key: T -> string): (n: nat) {
    if b == [] then 0
    else NewOnes(a, b[..|b| - 1], key) + (if HasKey(a, key, key(b[|b| - 1])) then 0 else 1)
  }

  lemma {:induction false} AbsentSize<T(!new)>(a: seq<T>, b: seq<T>, key: T -> string)
    ensures |EM.Absent(b, ByKey(a, key), key)| == NewOnes(a, b, key)
  {
    if b != [] {
      AbsentSize(a, b[..|b| - 1], key);
      ByKeyMeans(a, key, key(b[|b| - 1]));
    }
  }

  lemma ExtendMeans<T(!new)>(a: seq<T>, b: seq<T>, key: T -> string, inPlace: T -> T, appended: T -> T,
                             kept: (T, T) -> bool, added: (T, T) -> bool)
    requires EM.SameKey(inPlace, key) && EM.SameKey(appended, key)
    requires forall x :: x in a ==> kept(inPlace(x), x)
    requires forall y :: y in b ==> added(appended(y), y)
    ensures Extended(EM.Extend(a, b, key, inPlace, appended), a, b, key, kept, added)
  {
    var r := EM.Extend(a, b, key, inPlace, appended);
    EM.ExtendCovers(a, b, key, inPlace, appended);
    AbsentSize(a, b, key);
    hide EM.Extend, HasKey;
    forall e | e in r
      ensures (exists x :: x in a && kept(e, x)) || (exists y :: y in b && !HasKey(a, key, key(y)) && added(e, y))
    {
      EM.ExtendMembers(a, b, key, inPlace, appended, e);
      if y :| y in b && key(y) !in ByKey(a, key) && e == appended(y) { ByKeyMeans(a, key, key(y)); }
    }
    forall x | x in a ensures exists e :: e in r && kept(e, x) {
      EM.ExtendMembers(a, b, key, inPlace, appended, inPlace(x));
    }
    forall y | y in b && !HasKey(a, key, key(y)) ensures exists e :: e in r && added(e, y) {
      ByKeyMeans(a, key, key(y));
      EM.ExtendMembers(a, b, key, inPlace, appended, appended(y));
    }
    ExtendSize(a, b, key, inPlace, appended);
  }

  lemma ExtendSize<T(!new)>(a: seq<T>, b: seq<T>, key: T -> string, inPlace: T -> T, appended: T -> T)
    ensures |EM.Extend(a, b, key, inPlace, appended)| == |a| + |EM.Absent(b, ByKey(a, key), key)|
  {}

  lemma ItemsMean(a: seq<KeyToPath>, b: seq<KeyToPath>)
    ensures ListMerged(Items(a, b), a, b, ItemKey, ItemOver)
  { ItemLaws(); MergeMeans(a, b, ItemRule(), ItemOver); }

  lemma SourceMeans(a: Volume, b: Volume)
    ensures MergeVolume(a, b).name == a.name && SourceOver(MergeVolume(a, b).source, a.source, b.source)
  {
    hide Items, ListMerged;
    if a.source.secret.Some? && b.source.secret.Some? {
      ItemsMean(a.source.secret.value.items, b.source.secret.value.items);
    }
    if a.source.configMap.Some? && b.source.configMap.Some? {
      ItemsMean(a.source.configMap.value.items, b.source.configMap.value.items);
    }
  }

  lemma TidyMeans(v: Volume)
    ensures SameVolume(TidyVolume(v), v)
  {
    hide StableSort;
    if v.source.secret.Some? { SortMeans(v.source.secret.value.items); }
    if v.source.configMap.Some? { SortMeans(v.source.configMap.value.items); }
  }

  lemma SortMeans(items: seq<KeyToPath>)
    ensures Sorted(StableSort(items, ItemKey), ItemKey) && multiset(StableSort(items, ItemKey)) == multiset(items)
  {
    StableSortSorts(items, ItemKey);
    SortContents(items, ItemKey);
  }

  lemma KeptVolumeMeans(b: seq<Volume>, x: Volume)
    ensures KeptVolume(VolumeInPlace(b)(x), x, b)
  {
    var mb := ByKey(b, VolumeKey);
    var v := if x.name in mb then MergeVolume(x, mb[x.name]) else x;
    ByKeyMeans(b, VolumeKey, x.name);
    TidyMeans(v);
    hide MergeVolume, TidyVolume, SourceOver, SameVolume, HasKey, LastWith;
    if x.name in mb {
      SourceMeans(x, mb[x.name]);
      forall y | LastWith(b, VolumeKey, x.name, y) ensures SourceOver(v.source, x.source, y.source) {
        LastIsUnique(b, VolumeKey, x.name, y, mb[x.name]);
      }
    } else {
      forall y ensures !LastWith(b, VolumeKey, x.name, y) {
        if LastWith(b, VolumeKey, x.name, y) { LastIsByKey(b, VolumeKey, x.name, y); }
      }
    }
    assert SameVolume(TidyVolume(v), v);
  }

  ghost predicate VolumesMerged(r: seq<Volume>, a: seq<Volume>, b: seq<Volume>) {
    Extended(r, a, b, VolumeKey, (e: Volume, x: Volume) => KeptVolume(e, x, b), SameVolume)
  }

  lemma VolumesMean(a: seq<Volume>, b: seq<Volume>)
    ensures VolumesMerged(Volumes(a, b), a, b)
  {
    VolumeStepLaws(b);
    hide KeptVolume, SameVolume, StepVolume, TidyVolume;
    forall x ensures KeptVolume(VolumeInPlace(b)(x), x, b) { KeptVolumeMeans(b, x); }
    forall y ensures SameVolume(TidyVolume(y), y) { TidyMeans(y); }
    ExtendMeans(a, b, VolumeKey, VolumeInPlace(b), TidyVolume, (e: Volume, x: Volume) => KeptVolume(e, x, b),
                SameVolume);
  }

  // ---- The other lists of the pod ----

  ghost predicate Replaced(r: Toleration, a: Toleration, b: Toleration) { r == b }

  lemma TolerationsMean(a: seq<Toleration>, b: seq<Toleration>)
    ensures ListMerged(Tolerations(a, b), a, b, TolerationKey, Replaced)
  {
    var later := (x: Toleration, y: Toleration) => y;
    var ma, mb := ByKey(a, TolerationKey), ByKey(b, TolerationKey);
    assert ma + mb == KM.Overlay(ma, mb, later);
    assert IsListing(Tolerations(a, b), ma + mb, TolerationKey);
    ListingMeans(Tolerations(a, b), a, b, TolerationKey, later, Replaced);
  }

  /** The host name is listed for the address by the original's last alias or by any of the override's. */
  ghost predicate Names(a: seq<HostAlias>, b: seq<HostAlias>, ip: string, h: string) {
    || (exists x :: LastWith(a, AliasKey, ip, x) && h in x.hostnames)
    || (exists y :: y in b && y.ip == ip && h in y.hostnames)
  }

  /** Every address once and in order, with exactly the names given for it, the original's first. */
  ghost predicate AliasesMerged(r: seq<HostAlias>, a: seq<HostAlias>, b: seq<HostAlias>) {
    && StrictlySorted(r, AliasKey)
    && (forall ip :: HasKey(r, AliasKey, ip) <==> HasKey(a, AliasKey, ip) || HasKey(b, AliasKey, ip))
    && (forall i :: 0 <= i < |r| ==>
          && (forall h :: h in r[i].hostnames <==> Names(a, b, r[i].ip, h))
          && (forall x :: LastWith(a, AliasKey, r[i].ip, x) ==> x.hostnames <= r[i].hostnames))
  }

  lemma {:induction false} AliasesAdded(m: map<string, HostAlias>, b: seq<HostAlias>, ip: string)
    ensures ip in AddAliases(m, b) <==> ip in m || HasKey(b, AliasKey, ip)
    ensures ip in AddAliases(m, b) ==>
              var e := AddAliases(m, b)[ip];
              && (ip in m ==> m[ip].hostnames <= e.hostnames)
              && (forall h :: h in e.hostnames <==>
                    (ip in m && h in m[ip].hostnames) || exists y :: y in b && y.ip == ip && h in y.hostnames)
  {
    if b != [] {
      var init, last := b[..|b| - 1], b[|b| - 1];
      assert b == init + [last];
      AliasesAdded(m, init, ip);
      assert HasKey(b, AliasKey, ip) <==> HasKey(init, AliasKey, ip) || last.ip == ip by {
        if HasKey(b, AliasKey, ip) {
          var i :| 0 <= i < |b| && AliasKey(b[i]) == ip;
          if i < |init| { assert init[i] == b[i]; }
        }
        if HasKey(init, AliasKey, ip) {
          var i :| 0 <= i < |init| && AliasKey(init[i]) == ip;
          assert b[i] == init[i];
        }
        assert b[|b| - 1] == last;
      }
      forall y | y in init ensures HasKey(init, AliasKey, y.ip) {
        var i :| 0 <= i < |init| && init[i] == y;
        assert AliasKey(init[i]) == y.ip;
      }
    }
  }

  lemma AliasesMean(a: seq<HostAlias>, b: seq<HostAlias>)
    ensures AliasesMerged(HostAliases(a, b), a, b)
  {
    var ma := ByKey(a, AliasKey);
    var m, r := AddAliases(ma, b), HostAliases(a, b);
    AliasesKeyed(ma, b);
    assert IsListing(r, m, AliasKey);
    StrictIsDistinct(r, AliasKey);
    hide AddAliases, HostAliases, Listing, ByKey, HasKey, LastWith;
    forall ip ensures HasKey(r, AliasKey, ip) <==> HasKey(a, AliasKey, ip) || HasKey(b, AliasKey, ip) {
      ByKeyMeans(r, AliasKey, ip);
      ByKeyMeans(a, AliasKey, ip);
      AliasesAdded(ma, b, ip);
    }
    forall i | 0 <= i < |r|
      ensures (forall h :: h in r[i].hostnames <==> Names(a, b, r[i].ip, h))
      ensures forall x :: LastWith(a, AliasKey, r[i].ip, x) ==> x.hostnames <= r[i].hostnames
    {
      DistinctByKey(r, AliasKey, i);
      OneAlias(a, b, r[i].ip);
    }
  }

  lemma OneAlias(a: seq<HostAlias>, b: seq<HostAlias>, ip: string)
    requires ip in AddAliases(ByKey(a, AliasKey), b)
    ensures var e := AddAliases(ByKey(a, AliasKey), b)[ip];
            && (forall h :: h in e.hostnames <==> Names(a, b, ip, h))
            && (forall x :: LastWith(a, AliasKey, ip, x) ==> x.hostnames <= e.hostnames)
  {
    var ma := ByKey(a, AliasKey);
    hide ByKey, LastWith, AddAliases;
    AliasesAdded(ma, b, ip);
    ByKeyMeans(a, AliasKey, ip);
    forall x | LastWith(a, AliasKey, ip, x) ensures ip in ma && ma[ip] == x { LastIsByKey(a, AliasKey, ip, x); }
  }

  ghost predicate ConstraintOver(r: TopologySpreadConstraint, a: TopologySpreadConstraint,
                                 b: TopologySpreadConstraint) {
    r.topologyKey == a.topologyKey && Overridden(r.fields, a.fields, b.fields)
  }

  ghost predicate TopologyMerged(r: Option<seq<TopologySpreadConstraint>>, a: Option<seq<TopologySpreadConstraint>>,
                                 b: Option<seq<TopologySpreadConstraint>>) {
    && (b.None? ==> r == a)
    && (b.Some? ==> r.Some? && ListMerged(r.value, if a.Some? then a.value
                                          else [], b.value, TopologyKey, ConstraintOver))
  }

  lemma TopologyMeans(a: Option<seq<TopologySpreadConstraint>>, b: Option<seq<TopologySpreadConstraint>>)
    ensures TopologyMerged(Topology(a, b), a, b)
  {
    if b.Some? {
      TopologyLaws();
      MergeMeans(if a.Some? then a.value else [], b.value, TopologyRule(), ConstraintOver);
    }
  }

  ghost predicate DnsMerged(r: Option<PodDNSConfig>, a: Option<PodDNSConfig>, b: Option<PodDNSConfig>) {
    && (b.None? ==> r == a) && (a.None? ==> r == b)
    && (a.Some? && b.Some? ==>
          && r.Some? && Overridden(r.value.fields, a.value.fields, b.value.fields)
          && Joined(r.value.nameservers, a.value.nameservers, b.value.nameservers)
          && Joined(r.value.searches, a.value.searches, b.value.searches))
  }

  lemma DnsMeans(a: Option<PodDNSConfig>, b: Option<PodDNSConfig>)
    ensures DnsMerged(DNSConfig(a, b), a, b)
  {
    hide StringSlices, Joined;
    if a.Some? && b.Some? {
      StringsJoined(a.value.nameservers, b.value.nameservers);
      StringsJoined(a.value.searches, b.value.searches);
    }
  }

  // ---- Selectors and claims ----

  /** The first requirement with the key. */
  ghost predicate FirstWith(rs: seq<Requirement>, k: string, q: Requirement) {
    exists i :: 0 <= i < |rs| && rs[i] == q && q.key == k && forall j :: 0 <= j < i ==> rs[j].key != k
  }

  /** In order, the same values. */
  ghost predicate SortedAs(r: seq<string>, xs: seq<string>) { Sorted(r, Itself) && multiset(r) == multiset(xs) }

  /** A requirement of the original, with the override's first one for its key over it, values in order. */
  ghost predicate KeptRequirement(e: Requirement, x: Requirement, b: seq<Requirement>) {
    && e.key == x.key
    && (!HasKey(b, RequirementKey, x.key) ==> e.operator == x.operator && SortedAs(e.values, x.values))
    && (forall y :: FirstWith(b, x.key, y) ==>
          && TextOver(e.operator, x.operator, y.operator)
          && exists values :: Joined(values, x.values, y.values) && SortedAs(e.values, values))
  }

  ghost predicate AddedRequirement(e: Requirement, y: Requirement) {
    e.key == y.key && e.operator == y.operator && SortedAs(e.values, y.values)
  }

  lemma FirstIsUnique(rs: seq<Requirement>, k: string, x: Requirement, y: Requirement)
    requires FirstWith(rs, k, x) && FirstWith(rs, k, y)
    ensures x == y
  {
    var i :| 0 <= i < |rs| && rs[i] == x && x.key == k && forall j :: 0 <= j < i ==> rs[j].key != k;
    var j :| 0 <= j < |rs| && rs[j] == y && y.key == k && forall t :: 0 <= t < j ==> rs[t].key != k;
    assert i == j;
  }

  lemma ByKeyIsFirst(rs: seq<Requirement>, k: string)
    ensures RequirementByKey(rs, k).Some? <==> HasKey(rs, RequirementKey, k)
    ensures RequirementByKey(rs, k).Some? ==> FirstWith(rs, k, RequirementByKey(rs, k).value)
  {
    var r := RequirementByKey(rs, k);
    hide RequirementByKey;
    if r.Some? {
      var i :| IsFirst(rs, k, i) && rs[i] == r.value;
      assert RequirementKey(rs[i]) == k;
    }
    if HasKey(rs, RequirementKey, k) {
      var i :| 0 <= i < |rs| && RequirementKey(rs[i]) == k;
      assert rs[i] in rs && rs[i].key == k;
    }
  }

  lemma ValuesSorted(values: seq<string>)
    ensures SortedAs(StableSort(values, Itself), values)
  {
    StableSortSorts(values, Itself);
    SortContents(values, Itself);
  }

  lemma KeptRequirementMeans(b: seq<Requirement>, x: Requirement)
    ensures KeptRequirement(RequirementInPlace(b)(x), x, b)
  {
    var first := RequirementByKey(b, x.key);
    ByKeyIsFirst(b, x.key);
    hide RequirementByKey, StableSort, StringSlices, Joined, SortedAs, HasKey, FirstWith;
    if first.None? {
      ValuesSorted(x.values);
      forall y ensures !FirstWith(b, x.key, y) {
        if FirstWith(b, x.key, y) { FirstHasKey(b, x.key, y); }
      }
    } else {
      var values := StringSlices(x.values, first.value.values);
      StringsJoined(x.values, first.value.values);
      ValuesSorted(values);
      forall y | FirstWith(b, x.key, y) ensures y == first.value { FirstIsUnique(b, x.key, y, first.value); }
    }
  }

  lemma FirstHasKey(rs: seq<Requirement>, k: string, q: Requirement)
    requires FirstWith(rs, k, q)
    ensures HasKey(rs, RequirementKey, k)
  {
    var i :| 0 <= i < |rs| && rs[i] == q && q.key == k && forall j :: 0 <= j < i ==> rs[j].key != k;
    assert RequirementKey(rs[i]) == k;
  }

  ghost predicate RequirementsMerged(r: seq<Requirement>, a: seq<Requirement>, b: seq<Requirement>) {
    Extended(r, a, b, RequirementKey, (e: Requirement, x: Requirement) => KeptRequirement(e, x, b), AddedRequirement)
  }

  lemma RequirementsMean(a: seq<Requirement>, b: seq<Requirement>)
    ensures RequirementsMerged(Requirements(a, b), a, b)
  {
    RequirementLaws(b);
    hide KeptRequirement, StableSort, RequirementByKey;
    forall x ensures KeptRequirement(RequirementInPlace(b)(x), x, b) { KeptRequirementMeans(b, x); }
    forall y ensures AddedRequirement(SortedValues(y), y) { ValuesSorted(y.values); }
    hide RequirementInPlace, SortedValues, AddedRequirement;
    ExtendMeans(a, b, RequirementKey, RequirementInPlace(b), SortedValues,
                (e: Requirement, x: Requirement) => KeptRequirement(e, x, b), AddedRequirement);
  }

  /** Both selectors merged; without both, the original's as it is. */
  ghost predicate SelectorMerged(r: Option<LabelSelector>, a: Option<LabelSelector>, b: Option<LabelSelector>) {
    && (a.None? || b.None? ==> r == a)
    && (a.Some? && b.Some? ==>
          && r.Some? && Overridden(r.value.matchLabels, a.value.matchLabels, b.value.matchLabels)
          && RequirementsMerged(r.value.matchExpressions, a.value.matchExpressions, b.value.matchExpressions))
  }

  lemma SelectorMeans(a: Option<LabelSelector>, b: Option<LabelSelector>)
    ensures SelectorMerged(LabelSelectors(a, b), a, b)
  {
    hide Requirements, RequirementsMerged;
    if a.Some? && b.Some? { RequirementsMean(a.value.matchExpressions, b.value.matchExpressions); }
  }

  ghost predicate ClaimOver(r: Claim, a: Claim, b: Claim) {
    r.name == a.name && Overridden(r.fields, a.fields, b.fields) && Joined(r.accessModes, a.accessModes, b.accessModes)
  }

  lemma ClaimsMean(a: seq<Claim>, b: seq<Claim>)
    ensures ListMerged(Claims(a, b), a, b, ClaimKey, ClaimOver)
  {
    ClaimLaws();
    hide StringSlices, Joined;
    forall x: Claim, y: Claim {:trigger MergeClaim(x, y)} ensures ClaimOver(MergeClaim(x, y), x, y) {
      StringsJoined(x.accessModes, y.accessModes);
    }
    MergeMeans(a, b, ClaimRule(), ClaimOver);
  }

  // ---- The whole spec ----

  ghost predicate TemplateMerged(r: PodTemplateSpec, a: PodTemplateSpec, b: PodTemplateSpec) {
    && Overridden(r.annotations, a.annotations, b.annotations) && Overridden(r.labels, a.labels, b.labels)
    && Overridden(r.fields, a.fields, b.fields) && Overridden(r.nodeSelector, a.nodeSelector, b.nodeSelector)
    && VolumesMerged(r.volumes, a.volumes, b.volumes)
    && ListMerged(r.containers, a.containers, b.containers, ContainerKey, ContainerOver)
    && ListMerged(r.initContainers, a.initContainers, b.initContainers, ContainerKey, ContainerOver)
    && OptionOver(r.affinity, a.affinity, b.affinity)
    && ListMerged(r.tolerations, a.tolerations, b.tolerations, TolerationKey, Replaced)
    && AliasesMerged(r.hostAliases, a.hostAliases, b.hostAliases)
    && DnsMerged(r.dnsConfig, a.dnsConfig, b.dnsConfig) && TopologyMerged(r.topology, a.topology, b.topology)
  }

  ghost predicate SpecMerged(r: StatefulSetSpec, a: StatefulSetSpec, b: StatefulSetSpec) {
    && Overridden(r.fields, a.fields, b.fields) && SelectorMerged(r.selector, a.selector, b.selector)
    && TemplateMerged(r.template, a.template, b.template)
    && ListMerged(r.claims, a.claims, b.claims, ClaimKey, ClaimOver)
  }

  lemma TemplateMeans(a: PodTemplateSpec, b: PodTemplateSpec)
    ensures TemplateMerged(PodTemplateSpecs(a, b), a, b)
  {
    hide Volumes, Containers, Tolerations, HostAliases, DNSConfig, Topology, OptionalFields;
    hide VolumesMerged, ListMerged, AliasesMerged, DnsMerged, TopologyMerged, OptionOver;
    VolumesMean(a.volumes, b.volumes);
    ContainersMean(a.containers, b.containers);
    ContainersMean(a.initContainers, b.initContainers);
    OptionsOver(a.affinity, b.affinity);
    TolerationsMean(a.tolerations, b.tolerations);
    AliasesMean(a.hostAliases, b.hostAliases);
    DnsMeans(a.dnsConfig, b.dnsConfig);
    TopologyMeans(a.topology, b.topology);
  }

  /** For all specs and overrides: what every part of the merged spec is, and which side it comes from. */
  lemma SpecMeans(a: StatefulSetSpec, b: StatefulSetSpec)
    ensures SpecMerged(StatefulSetSpecs(a, b), a, b)
  {
    hide LabelSelectors, PodTemplateSpecs, Claims, SelectorMerged, TemplateMerged, ListMerged;
    SelectorMeans(a.selector, b.selector);
    TemplateMeans(a.template, b.template);
    ClaimsMean(a.claims, b.claims);
  }
}
