/**
 What a merge of two values means: which side every part of the result comes from, told without the merge functions.
 */
module MergeMeaning {
  import opened Wrappers
  import opened Ordering
  import opened Arrangement
  import opened PodMerge
  import opened PodMergeLaws
  import opened MountLaws
  import EM = ExtendMerge
  import KM = KeyedMerge

  // ---- Fields ----

  /** What the override sets is the override's, everything else the original's, and nothing else appears. */
  ghost predicate Overridden(r: Fields, a: Fields, b: Fields) {
    && (forall k :: k in r <==> k in a || k in b)
    && (forall k :: k in b ==> r[k] == b[k])
    && (forall k :: k in a && k !in b ==> r[k] == a[k])
  }

  predicate TextOver(r: string, a: string, b: string) { (b != "" ==> r == b) && (b == "" ==> r == a) }

  /** A struct behind a pointer: the side that is there, or both field by field. */
  ghost predicate OptionOver(r: Option<Fields>, a: Option<Fields>, b: Option<Fields>) {
    && (b.None? ==> r == a) && (a.None? ==> r == b)
    && (a.Some? && b.Some? ==> r.Some? && Overridden(r.value, a.value, b.value))
  }

  /** The first string occurs in the list before the second does for the first time. */
  ghost predicate Precedes(xs: seq<string>, s: string, t: string) {
    exists p :: 0 <= p < |xs| && xs[p] == s && t !in xs[..p + 1]
  }

  /** The original's strings, then those only the override has, each once and in the override's order. */
  ghost predicate Joined(r: seq<string>, a: seq<string>, b: seq<string>) {
    && a <= r && (forall s :: s in r <==> s in a || s in b)
    && (forall i, j :: |a| <= i < |r| && 0 <= j < i ==> r[j] != r[i])
    && (forall i, j :: |a| <= i < j < |r| ==> Precedes(b, r[i], r[j]))
  }

  lemma PrecedesLonger(xs: seq<string>, more: string, s: string, t: string)
    requires Precedes(xs, s, t)
    ensures Precedes(xs + [more], s, t)
  {
    var p :| 0 <= p < |xs| && xs[p] == s && t !in xs[..p + 1];
    assert (xs + [more])[..p + 1] == xs[..p + 1];
  }

  lemma {:induction false} StringsJoined(a: seq<string>, b: seq<string>)
    ensures Joined(StringSlices(a, b), a, b)
  {
    var r := StringSlices(a, b);
    if b != [] {
      var init, last := b[..|b| - 1], b[|b| - 1];
      var before := StringSlices(a, init);
      StringsJoined(a, init);
      assert b == init + [last];
      forall i, j | |a| <= i < j < |r| ensures Precedes(b, r[i], r[j]) {
        if j < |before| {
          PrecedesLonger(init, last, r[i], r[j]);
        } else {
          assert r[i] in before && r[i] !in a;
          var p :| 0 <= p < |init| && init[p] == r[i];
          assert b[..p + 1] == init[..p + 1];
        }
      }
    }
  }

  lemma FieldsOver(a: Fields, b: Fields)
    ensures Overridden(a + b, a, b)
  {}

  lemma OptionsOver(a: Option<Fields>, b: Option<Fields>)
    ensures OptionOver(OptionalFields(a, b), a, b)
  {}

  // ---- Keyed lists ----

  ghost predicate HasKey<T>(xs: seq<T>, key: T -> string, k: string) { exists i :: 0 <= i < |xs| && key(xs[i]) == k }

  /** The last element with the key. */
  ghost predicate LastWith<T>(xs: seq<T>, key: T -> string, k: string, x: T) {
    exists i :: 0 <= i < |xs| && xs[i] == x && key(x) == k && forall j :: i < j < |xs| ==> key(xs[j]) != k
  }

  /** The element comes from the last ones with the key on both sides, merged, or from the only side that has it. */
  ghost predicate MadeFrom<T(!new)>(e: T, a: seq<T>, b: seq<T>, key: T -> string, k: string,
                                    merged: (T, T, T) -> bool) {
    && (HasKey(a, key, k) || HasKey(b, key, k))
    && (forall x, y :: LastWith(a, key, k, x) && LastWith(b, key, k, y) ==> merged(e, x, y))
    && (forall x :: LastWith(a, key, k, x) && !HasKey(b, key, k) ==> e == x)
    && (forall y :: LastWith(b, key, k, y) && !HasKey(a, key, k) ==> e == y)
  }

  /** Every key of either list once and in order, each with the element made from it. */
  ghost predicate ListMerged<T(!new)>(r: seq<T>, a: seq<T>, b: seq<T>, key: T -> string, merged: (T, T, T) -> bool) {
    && StrictlySorted(r, key)
    && (forall k :: HasKey(r, key, k) <==> HasKey(a, key, k) || HasKey(b, key, k))
    && (forall i :: 0 <= i < |r| ==> MadeFrom(r[i], a, b, key, key(r[i]), merged))
  }

  lemma KeyAppended<T>(xs: seq<T>, last: T, key: T -> string, k: string)
    ensures HasKey(xs + [last], key, k) <==> HasKey(xs, key, k) || key(last) == k
  {
    var ys := xs + [last];
    if HasKey(ys, key, k) {
      var i :| 0 <= i < |ys| && key(ys[i]) == k;
      if i < |xs| { assert xs[i] == ys[i]; }
    }
    if HasKey(xs, key, k) {
      var i :| 0 <= i < |xs| && key(xs[i]) == k;
      assert ys[i] == xs[i];
    }
    assert ys[|xs|] == last;
  }

  lemma LastAppended<T>(xs: seq<T>, last: T, key: T -> string, k: string, x: T)
    requires if key(last) == k then x == last else LastWith(xs, key, k, x)
    ensures LastWith(xs + [last], key, k, x)
  {
    var ys := xs + [last];
    if key(last) == k {
      assert ys[|xs|] == last;
    } else {
      var i :| 0 <= i < |xs| && xs[i] == x && key(x) == k && forall j :: i < j < |xs| ==> key(xs[j]) != k;
      assert ys[i] == x;
    }
  }

  lemma {:induction false} ByKeyMeans<T>(xs: seq<T>, key: T -> string, k: string)
    ensures k in ByKey(xs, key) <==> HasKey(xs, key, k)
    ensures k in ByKey(xs, key) ==> LastWith(xs, key, k, ByKey(xs, key)[k])
  {
    if xs != [] {
      var init, last := xs[..|xs| - 1], xs[|xs| - 1];
      assert xs == init + [last];
      ByKeyMeans(init, key, k);
      ByKeyAppend(init, last, key);
      KeyAppended(init, last, key, k);
      hide ByKey, HasKey, LastWith;
      if k in ByKey(xs, key) { LastAppended(init, last, key, k, ByKey(xs, key)[k]); }
    }
  }

  lemma LastIsUnique<T>(xs: seq<T>, key: T -> string, k: string, x: T, y: T)
    requires LastWith(xs, key, k, x) && LastWith(xs, key, k, y)
    ensures x == y
  {
    var i :| 0 <= i < |xs| && xs[i] == x && key(x) == k && forall j :: i < j < |xs| ==> key(xs[j]) != k;
    var j :| 0 <= j < |xs| && xs[j] == y && key(y) == k && forall t :: j < t < |xs| ==> key(xs[t]) != k;
    assert i == j;
  }

  lemma LastIsByKey<T>(xs: seq<T>, key: T -> string, k: string, x: T)
    requires LastWith(xs, key, k, x)
    ensures k in ByKey(xs, key) && ByKey(xs, key)[k] == x
  {
    ByKeyMeans(xs, key, k);
    LastIsUnique(xs, key, k, x, ByKey(xs, key)[k]);
  }

  lemma OverlayMeans<T(!new)>(a: seq<T>, b: seq<T>, key: T -> string, merge: (T, T) -> T, merged: (T, T, T) -> bool,
                              k: string)
    requires forall x, y {:trigger merge(x, y)} :: merged(merge(x, y), x, y)
    requires k in KM.Overlay(ByKey(a, key), ByKey(b, key), merge)
    ensures MadeFrom(KM.Overlay(ByKey(a, key), ByKey(b, key), merge)[k], a, b, key, k, merged)
  {
    var ma, mb := ByKey(a, key), ByKey(b, key);
    var e := KM.Overlay(ma, mb, merge)[k];
    ByKeyMeans(a, key, k);
    ByKeyMeans(b, key, k);
    hide ByKey, HasKey, LastWith;
    forall x, y | LastWith(a, key, k, x) && LastWith(b, key, k, y) ensures merged(e, x, y) {
      LastIsByKey(a, key, k, x);
      LastIsByKey(b, key, k, y);
    }
    forall x | LastWith(a, key, k, x) && !HasKey(b, key, k) ensures e == x { LastIsByKey(a, key, k, x); }
    forall y | LastWith(b, key, k, y) && !HasKey(a, key, k) ensures e == y { LastIsByKey(b, key, k, y); }
  }

  /** A listing of the overlaid maps is the merged list. */
  lemma ListingMeans<T(!new)>(r: seq<T>, a: seq<T>, b: seq<T>, key: T -> string, merge: (T, T) -> T,
                              merged: (T, T, T) -> bool)
    requires IsListing(r, KM.Overlay(ByKey(a, key), ByKey(b, key), merge), key)
    requires forall x, y {:trigger merge(x, y)} :: merged(merge(x, y), x, y)
    ensures ListMerged(r, a, b, key, merged)
  {
    var m := KM.Overlay(ByKey(a, key), ByKey(b, key), merge);
    StrictIsDistinct(r, key);
    assert m.Keys == ByKey(a, key).Keys + ByKey(b, key).Keys;
    hide KM.Overlay, MadeFrom, HasKey;
    forall k ensures HasKey(r, key, k) <==> HasKey(a, key, k) || HasKey(b, key, k) {
      ByKeyMeans(r, key, k);
      ByKeyMeans(a, key, k);
      ByKeyMeans(b, key, k);
    }
    forall i | 0 <= i < |r| ensures MadeFrom(r[i], a, b, key, key(r[i]), merged) {
      DistinctByKey(r, key, i);
      OverlayMeans(a, b, key, merge, merged, key(r[i]));
    }
  }

  lemma MergeMeans<T(!new)>(a: seq<T>, b: seq<T>, rule: KM.Rule<T>, merged: (T, T, T) -> bool)
    requires KM.AllOk(a, rule) && KM.AllOk(b, rule) && KM.KeepsKey(rule)
    requires forall x, y {:trigger rule.merge(x, y)} :: merged(rule.merge(x, y), x, y)
    ensures ListMerged(KM.Merge(a, b, rule.key, rule.merge), a, b, rule.key, merged)
  {
    KM.MergeIsListing(a, b, rule);
    ListingMeans(KM.Merge(a, b, rule.key, rule.merge), a, b, rule.key, rule.merge, merged);
  }

  // ---- Elements of containers ----

  ghost predicate PortOver(r: Port, a: Port, b: Port) {
    TextOver(r.name, a.name, b.name) && Overridden(r.fields, a.fields, b.fields)
  }

  /** A source replaces a value and a value a source; an override with neither changes nothing. */
  ghost predicate EnvOver(r: EnvVar, a: EnvVar, b: EnvVar) {
    && r.name == a.name
    && (b.valueFrom.Some? ==> r.valueFrom == b.valueFrom && r.value == "")
    && (b.valueFrom.None? && b.value != "" ==> r.value == b.value && r.valueFrom == None)
    && (b.valueFrom.None? && b.value == "" ==> r.value == a.value && r.valueFrom == a.valueFrom)
  }

  ghost predicate DeviceOver(r: VolumeDevice, a: VolumeDevice, b: VolumeDevice) {
    TextOver(r.name, a.name, b.name) && TextOver(r.devicePath, a.devicePath, b.devicePath)
  }

  ghost predicate MountOver(r: VolumeMount, a: VolumeMount, b: VolumeMount) {
    && TextOver(r.name, a.name, b.name) && TextOver(r.mountPath, a.mountPath, b.mountPath)
    && TextOver(r.subPath, a.subPath, b.subPath) && Overridden(r.fields, a.fields, b.fields)
  }

  /** As ListMerged, except that a merged mount may have another key than the mounts it comes from. */
  ghost predicate MountsMerged(r: seq<VolumeMount>, a: seq<VolumeMount>, b: seq<VolumeMount>) {
    && Sorted(r, MountKey)
    && (forall e :: e in r ==> exists k :: MadeFrom(e, a, b, MountKey, k, MountOver))
    && (forall k :: HasKey(a, MountKey, k) || HasKey(b, MountKey, k) ==>
          exists e :: e in r && MadeFrom(e, a, b, MountKey, k, MountOver))
    && |r| == |KeySet(a) + KeySet(b)|
  }

  ghost function KeySet(xs: seq<VolumeMount>): (ks: set<string>) { set i | 0 <= i < |xs| :: MountKey(xs[i]) }

  lemma KeySetIsKeys(xs: seq<VolumeMount>)
    ensures KeySet(xs) == ByKey(xs, MountKey).Keys
  {
    forall k ensures k in KeySet(xs) <==> k in ByKey(xs, MountKey) { ByKeyMeans(xs, MountKey, k); }
  }

  lemma {:induction false} EnumerateSize<T>(m: map<string, T>)
    ensures |Enumerate(m)| == |m|
  {
    if m != map[] {
      var k :| k in m && Enumerate(m) == Enumerate(m - {k}) + [m[k]];
      EnumerateSize(m - {k});
      assert m.Keys == (m - {k}).Keys + {k};
    }
  }

  lemma MountElements() ensures forall x, y {:trigger MergeMount(x, y)} :: MountOver(MergeMount(x, y), x, y) {}

  /** Whatever order the map gives, the merged mounts mean this. */
  lemma MountsMean(r: seq<VolumeMount>, a: seq<VolumeMount>, b: seq<VolumeMount>)
    requires IsMountMerge(r, a, b)
    ensures MountsMerged(r, a, b)
  {
    var m := MergedMounts(a, b);
    assert m.Keys == ByKey(a, MountKey).Keys + ByKey(b, MountKey).Keys;
    MountElements();
    hide KM.Overlay, ByKey, MountOver, MergeMount, MountKey, Enumerate, MadeFrom, HasKey;
    forall e | e in r ensures exists k :: MadeFrom(e, a, b, MountKey, k, MountOver) {
      var k := ArrangementFrom(r, m, MountKey, e);
      OverlayMeans(a, b, MountKey, MergeMount, MountOver, k);
    }
    forall k | HasKey(a, MountKey, k) || HasKey(b, MountKey, k)
      ensures exists e :: e in r && MadeFrom(e, a, b, MountKey, k, MountOver)
    {
      ByKeyMeans(a, MountKey, k);
      ByKeyMeans(b, MountKey, k);
      ArrangementHas(r, m, MountKey, k);
      OverlayMeans(a, b, MountKey, MergeMount, MountOver, k);
    }
    MountsSize(r, a, b);
  }

  lemma MountsSize(r: seq<VolumeMount>, a: seq<VolumeMount>, b: seq<VolumeMount>)
    requires IsMountMerge(r, a, b)
    ensures |r| == |KeySet(a) + KeySet(b)|
  {
    var m := MergedMounts(a, b);
    assert m.Keys == ByKey(a, MountKey).Keys + ByKey(b, MountKey).Keys;
    hide KM.Overlay, ByKey, MountKey, Enumerate, Sorted;
    EnumerateSize(m);
    assert |r| == |multiset(r)| == |multiset(Enumerate(m))| == |Enumerate(m)|;
    assert |m| == |m.Keys|;
    KeySetIsKeys(a);
    KeySetIsKeys(b);
  }

  /** The whole container, list by list and field by field. */
  ghost predicate ContainerOver(r: Container, a: Container, b: Container) {
    && TextOver(r.name, a.name, b.name) && Overridden(r.fields, a.fields, b.fields)
    && Joined(r.command, a.command, b.command) && Joined(r.args, a.args, b.args)
    && ListMerged(r.ports, a.ports, b.ports, PortKey, PortOver)
    && ListMerged(r.env, a.env, b.env, EnvKey, EnvOver)
    && MountsMerged(r.volumeMounts, a.volumeMounts, b.volumeMounts)
    && ListMerged(r.volumeDevices, a.volumeDevices, b.volumeDevices, DeviceKey, DeviceOver)
    && OptionOver(r.livenessProbe, a.livenessProbe, b.livenessProbe)
    && OptionOver(r.readinessProbe, a.readinessProbe, b.readinessProbe)
    && OptionOver(r.startupProbe, a.startupProbe, b.startupProbe)
    && OptionOver(r.lifecycle, a.lifecycle, b.lifecycle)
    && OptionOver(r.securityContext, a.securityContext, b.securityContext)
  }

  lemma PortsMean(a: seq<Port>, b: seq<Port>)
    ensures ListMerged(Ports(a, b), a, b, PortKey, PortOver)
  { PortLaws(); MergeMeans(a, b, PortRule(), PortOver); }

  lemma EnvsMean(a: seq<EnvVar>, b: seq<EnvVar>)
    ensures ListMerged(Envs(a, b), a, b, EnvKey, EnvOver)
  { EnvLaws(); MergeMeans(a, b, EnvRule(), EnvOver); }

  lemma DevicesMean(a: seq<VolumeDevice>, b: seq<VolumeDevice>)
    ensures ListMerged(Devices(a, b), a, b, DeviceKey, DeviceOver)
  { DeviceLaws(); MergeMeans(a, b, DeviceRule(), DeviceOver); }

  lemma ContainerMeans(a: Container, b: Container)
    ensures ContainerOver(MergeContainer(a, b), a, b)
  {
    hide Ports, Envs, Mounts, Devices, StringSlices, OptionalFields, ListMerged, MountsMerged, Joined, OptionOver;
    hide Overridden;
    FieldsOver(a.fields, b.fields);
    StringsJoined(a.command, b.command);
    StringsJoined(a.args, b.args);
    PortsMean(a.ports, b.ports);
    EnvsMean(a.env, b.env);
    MountsArrange(a.volumeMounts, b.volumeMounts);
    MountsMean(Mounts(a.volumeMounts, b.volumeMounts), a.volumeMounts, b.volumeMounts);
    DevicesMean(a.volumeDevices, b.volumeDevices);
    OptionsOver(a.livenessProbe, b.livenessProbe);
    OptionsOver(a.readinessProbe, b.readinessProbe);
    OptionsOver(a.startupProbe, b.startupProbe);
    OptionsOver(a.lifecycle, b.lifecycle);
    OptionsOver(a.securityContext, b.securityContext);
  }

  lemma ContainersMean(a: seq<Container>, b: seq<Container>)
    ensures ListMerged(Containers(a, b), a, b, ContainerKey, ContainerOver)
  {
    ContainerKeepsName();
    hide MergeContainer, ContainerOver;
    forall x: Container, y: Container {:trigger MergeContainer(x, y)}
      ensures ContainerOver(MergeContainer(x, y), x, y)
    {
      ContainerMeans(x, y);
    }
    MergeMeans(a, b, ContainerRule(), ContainerOver);
  }

  /** What identifies the elements of each list. */
  lemma KeysAre()
    ensures forall p: Port :: PortKey(p) == p.name
    ensures forall e: EnvVar :: EnvKey(e) == e.name
    ensures forall d: VolumeDevice :: DeviceKey(d) == d.name
    ensures forall m: VolumeMount :: MountKey(m) == m.name + "_" + m.mountPath + "_" + m.subPath
    ensures forall c: Container :: ContainerKey(c) == c.name
    ensures forall i: KeyToPath :: ItemKey(i) == i.key
    ensures forall v: Volume :: VolumeKey(v) == v.name
    ensures forall t: Toleration :: TolerationKey(t) == t.key
    ensures forall a: HostAlias :: AliasKey(a) == a.ip
    ensures forall t: TopologySpreadConstraint :: TopologyKey(t) == t.topologyKey
    ensures forall c: Claim :: ClaimKey(c) == c.name
    ensures forall r: Requirement :: RequirementKey(r) == r.key
  {}
}
