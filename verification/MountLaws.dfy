/**
 Volume mounts are keyed by their name, path and sub-path joined with underscores, and the merge of two mounts with one
 key may have another. These laws hold for all mounts and for any map iteration order.
 */
module MountLaws {
  import opened Ordering
  import opened Arrangement
  import opened PodMerge
  import opened PodMergeLaws
  import KM = KeyedMerge

  /** The merged mounts, each under the key of the mounts it was made from. */
  ghost function MergedMounts(a: seq<VolumeMount>, b: seq<VolumeMount>): (m: map<string, VolumeMount>) {
    KM.Overlay(ByKey(a, MountKey), ByKey(b, MountKey), MergeMount)
  }

  /**
   What VolumeMounts may return: the merged mounts in key order; the order of mounts with one key is left to the map.
   */
  ghost predicate IsMountMerge(r: seq<VolumeMount>, a: seq<VolumeMount>, b: seq<VolumeMount>) {
    IsArrangement(r, MergedMounts(a, b), MountKey)
  }

  /** Merging does not change the key of a mount. */
  ghost predicate KeysKept(a: seq<VolumeMount>, b: seq<VolumeMount>) {
    var ma, mb := ByKey(a, MountKey), ByKey(b, MountKey);
    forall k :: k in ma && k in mb ==> MountKey(MergeMount(ma[k], mb[k])) == k
  }

  lemma KeysKeptIff(a: seq<VolumeMount>, b: seq<VolumeMount>)
    ensures KeyedMap(MergedMounts(a, b), MountKey) <==> KeysKept(a, b)
  {
    var ma, mb, m := ByKey(a, MountKey), ByKey(b, MountKey), MergedMounts(a, b);
    if KeyedMap(m, MountKey) {
      forall k | k in ma && k in mb ensures MountKey(MergeMount(ma[k], mb[k])) == k { assert k in m; }
    }
  }

  lemma MountsArrange(a: seq<VolumeMount>, b: seq<VolumeMount>)
    ensures IsMountMerge(Mounts(a, b), a, b)
  {
    ListingArranges(MergedMounts(a, b), MountKey);
  }

  /** If keys are kept there is only one result. */
  lemma KeptIsDetermined(a: seq<VolumeMount>, b: seq<VolumeMount>, r: seq<VolumeMount>)
    requires IsMountMerge(r, a, b) && KeysKept(a, b)
    ensures r == Mounts(a, b)
  {
    KeysKeptIff(a, b);
    KeyedArrangement(r, MergedMounts(a, b), MountKey);
  }

  /** The result does not depend on map iteration order exactly when no two different merged mounts have one key. */
  lemma MountsDeterminedIff(a: seq<VolumeMount>, b: seq<VolumeMount>)
    ensures (forall r, s :: IsMountMerge(r, a, b) && IsMountMerge(s, a, b) ==> r == s)
            <==>
            NoTies(MergedMounts(a, b), MountKey)
  {
    var m := MergedMounts(a, b);
    UniqueIff(m, MountKey);
    hide IsArrangement, NoTies;
    if forall r, s :: IsMountMerge(r, a, b) && IsMountMerge(s, a, b) ==> r == s {
      forall xs, ys | IsArrangement(xs, m, MountKey) && IsArrangement(ys, m, MountKey) ensures xs == ys {
        assert IsMountMerge(xs, a, b) && IsMountMerge(ys, a, b);
      }
    }
  }

  lemma MountTwice(x: VolumeMount, y: VolumeMount)
    ensures MergeMount(MergeMount(x, y), y) == MergeMount(x, y) && MergeMount(y, y) == y
  {
    Union(x.fields, y.fields);
  }

  /** A key that changes gets longer: the override's parts are kept, and empty ones may be filled. */
  lemma KeyGrows(x: VolumeMount, y: VolumeMount)
    ensures MountKey(MergeMount(x, y)) == MountKey(y) || |MountKey(MergeMount(x, y))| > |MountKey(y)|
  {
    var m := MergeMount(x, y);
    assert |m.name| >= |y.name| && |m.mountPath| >= |y.mountPath| && |m.subPath| >= |y.subPath|;
  }

  /** Merged again, kept keys give the same mounts. */
  lemma KeptAgain(a: seq<VolumeMount>, b: seq<VolumeMount>, once: seq<VolumeMount>)
    requires KeysKept(a, b) && once == Mounts(a, b)
    ensures MergedMounts(once, b) == MergedMounts(a, b) && KeysKept(once, b)
  {
    var ma, mb, m := ByKey(a, MountKey), ByKey(b, MountKey), MergedMounts(a, b);
    KeysKeptIff(a, b);
    assert ByKey(once, MountKey) == m;
    hide ByKey;
    forall k | k in mb ensures MergeMount(m[k], mb[k]) == m[k] {
      if k in ma { MountTwice(ma[k], mb[k]); } else { MountTwice(mb[k], mb[k]); }
    }
    KeysKeptIff(once, b);
  }

  lemma {:induction false} Shortest(s: set<string>) returns (k: string)
    requires s != {}
    ensures k in s && forall j :: j in s ==> |k| <= |j|
  {
    k :| k in s;
    if s != {k} {
      var j := Shortest(s - {k});
      if |j| < |k| { k := j; }
    }
  }

  /** The shortest key that changes is one that the merged mounts do not have. */
  lemma ShortestIsMissing(a: seq<VolumeMount>, b: seq<VolumeMount>) returns (k: string)
    requires !KeysKept(a, b)
    ensures k in ByKey(b, MountKey)
    ensures var m := MergedMounts(a, b); forall j :: j in m ==> MountKey(m[j]) != k
  {
    var ma, mb, m := ByKey(a, MountKey), ByKey(b, MountKey), MergedMounts(a, b);
    var changed := set k | k in ma && k in mb && MountKey(MergeMount(ma[k], mb[k])) != k;
    var some :| some in ma && some in mb && MountKey(MergeMount(ma[some], mb[some])) != some;
    assert some in changed;
    k := Shortest(changed);
    hide ByKey;
    forall j | j in m ensures MountKey(m[j]) != k {
      if j in ma && j in mb {
        KeyGrows(ma[j], mb[j]);
        assert MountKey(mb[j]) == j;
      }
    }
  }

  lemma ChangedMerge(a: seq<VolumeMount>, b: seq<VolumeMount>, once: seq<VolumeMount>, twice: seq<VolumeMount>)
    requires IsMountMerge(once, a, b) && IsMountMerge(twice, once, b) && !KeysKept(a, b)
    ensures once != twice
  {
    var k := ShortestIsMissing(a, b);
    var mo, mb := ByKey(once, MountKey), ByKey(b, MountKey);
    if k in mo {
      var i := ByKeyFrom(once, MountKey, k);
      var j := ArrangementFrom(once, MergedMounts(a, b), MountKey, once[i]);
    }
    assert MergedMounts(once, b)[k] == mb[k] && MountKey(mb[k]) == k;
    ArrangementHas(twice, MergedMounts(once, b), MountKey, k);
    if once == twice {
      var j := ArrangementFrom(once, MergedMounts(a, b), MountKey, mb[k]);
    }
  }

  /** Whatever the map iteration orders, the second merge equals the first exactly when the first kept all keys. */
  lemma MountsTwiceIff(a: seq<VolumeMount>, b: seq<VolumeMount>, once: seq<VolumeMount>, twice: seq<VolumeMount>)
    requires IsMountMerge(once, a, b) && IsMountMerge(twice, once, b)
    ensures twice == once <==> KeysKept(a, b)
  {
    if KeysKept(a, b) {
      KeptIsDetermined(a, b, once);
      KeptAgain(a, b, once);
      KeptIsDetermined(once, b, twice);
      hide IsMountMerge, KeysKept;
    } else {
      ChangedMerge(a, b, once, twice);
    }
  }

  lemma MountsOnceIff(a: seq<VolumeMount>, b: seq<VolumeMount>)
    ensures Mounts(Mounts(a, b), b) == Mounts(a, b) <==> KeysKept(a, b)
  {
    hide IsMountMerge, Mounts, KeysKept;
    var once := Mounts(a, b);
    MountsArrange(a, b);
    MountsArrange(once, b);
    MountsTwiceIff(a, b, once, Mounts(once, b));
  }

  lemma SelfKept(xs: seq<VolumeMount>)
    ensures KeysKept(xs, xs) && MergedMounts(xs, xs) == ByKey(xs, MountKey)
  {
    var m := ByKey(xs, MountKey);
    hide ByKey;
    forall k | k in m ensures MergeMount(m[k], m[k]) == m[k] { MountTwice(m[k], m[k]); }
  }

  lemma MountsWithSelfIff(xs: seq<VolumeMount>)
    ensures Mounts(xs, xs) == xs <==> StrictlySorted(xs, MountKey)
  {
    SelfKept(xs);
    var m := ByKey(xs, MountKey);
    assert IsListing(Mounts(xs, xs), m, MountKey);
    if StrictlySorted(xs, MountKey) { ListingUnique(xs, Mounts(xs, xs), m, MountKey); }
  }

  /** In every container that both sides have, merging keeps the keys of the mounts. */
  ghost predicate SharedKeysKept(x: seq<Container>, o: seq<Container>) {
    var mx, mo := ByKey(x, ContainerKey), ByKey(o, ContainerKey);
    forall k :: k in mx && k in mo ==> KeysKept(mx[k].volumeMounts, mo[k].volumeMounts)
  }

  // ---- Mount points told apart by their keys ----

  /** Where a volume is mounted: the three parts that MountKey joins. */
  type MountPoint = (string, string, string)

  function PointOf(m: VolumeMount): MountPoint { (m.name, m.mountPath, m.subPath) }

  /** No two different mount points among the mounts have the same joined key. */
  ghost predicate Injective(a: seq<VolumeMount>, b: seq<VolumeMount>) {
    forall x, y :: x in a && y in b && MountKey(x) == MountKey(y) ==> PointOf(x) == PointOf(y)
  }

  lemma SamePoint(x: VolumeMount, y: VolumeMount)
    requires PointOf(x) == PointOf(y)
    ensures MountKey(MergeMount(x, y)) == MountKey(y)
  {}

  lemma InjectiveKeepsKeys(a: seq<VolumeMount>, b: seq<VolumeMount>)
    requires Injective(a, b)
    ensures KeysKept(a, b)
  {
    hide ByKey, MountKey, MergeMount;
    var ma, mb := ByKey(a, MountKey), ByKey(b, MountKey);
    forall k | k in ma && k in mb ensures MountKey(MergeMount(ma[k], mb[k])) == k {
      var i := ByKeyFrom(a, MountKey, k);
      var j := ByKeyFrom(b, MountKey, k);
      assert a[i] in a && b[j] in b;
      SamePoint(ma[k], mb[k]);
    }
  }

  // ---- Mounts that have not settled after two merges ----

  const FIRST := VolumeMount("p", "q", "r_", map[])
  const SECOND := VolumeMount("p", "q", "r_r_", map[])
  const OVER_FIRST := VolumeMount("p", "q_r", "", map[])
  const OVER_SECOND := VolumeMount("p", "q_r_r", "", map[])

  lemma WitnessKeys()
    ensures MountKey(FIRST) == MountKey(OVER_FIRST) == "p_q_r_"
    ensures MountKey(SECOND) == MountKey(OVER_SECOND) == "p_q_r_r_"
    ensures MountKey(MergeMount(FIRST, OVER_FIRST)) == "p_q_r_r_"
    ensures |MountKey(MergeMount(SECOND, OVER_SECOND))| == 12
    ensures |MountKey(MergeMount(MergeMount(FIRST, OVER_FIRST), OVER_SECOND))| == 10
  {}

  lemma TwoEntries(x: VolumeMount, y: VolumeMount)
    ensures ByKey([x, y], MountKey) == map[MountKey(x) := x][MountKey(y) := y]
  {
    assert [x, y][..1] == [x] && [x][..0] == [];
    assert ByKey([x], MountKey) == map[MountKey(x) := x];
  }

  /** What the first merge makes of the second key. */
  lemma WitnessOnce(once: seq<VolumeMount>)
    requires IsMountMerge(once, [FIRST, SECOND], [OVER_FIRST, OVER_SECOND])
    ensures !KeysKept(once, [OVER_FIRST, OVER_SECOND])
  {
    var k := MountKey(OVER_SECOND);
    var m := MergedMounts([FIRST, SECOND], [OVER_FIRST, OVER_SECOND]);
    WitnessKeys();
    TwoEntries(FIRST, SECOND);
    TwoEntries(OVER_FIRST, OVER_SECOND);
    hide MountKey, ByKey;
    var first := MergeMount(FIRST, OVER_FIRST);
    assert m == map["p_q_r_" := first, "p_q_r_r_" := MergeMount(SECOND, OVER_SECOND)];
    ArrangementHas(once, m, MountKey, "p_q_r_");
    var i :| 0 <= i < |once| && once[i] == first;
    ByKeyHas(once, MountKey, i);
    var j := ByKeyFrom(once, MountKey, k);
    var from := ArrangementFrom(once, m, MountKey, once[j]);
    assert ByKey(once, MountKey)[k] == first;
    assert ByKey([OVER_FIRST, OVER_SECOND], MountKey)[k] == OVER_SECOND;
  }

  /** In any map iteration order the third merge of these mounts differs from the second. */
  lemma UnsettledMounts(once: seq<VolumeMount>, twice: seq<VolumeMount>, thrice: seq<VolumeMount>)
    requires IsMountMerge(once, [FIRST, SECOND], [OVER_FIRST, OVER_SECOND])
    requires IsMountMerge(twice, once, [OVER_FIRST, OVER_SECOND])
    requires IsMountMerge(thrice, twice, [OVER_FIRST, OVER_SECOND])
    ensures twice != once && thrice != twice
  {
    var o := [OVER_FIRST, OVER_SECOND];
    WitnessOnce(once);
    hide IsMountMerge, KeysKept;
    SecondMergeDiffers(once, twice);
    MountsTwiceIff(once, o, twice, thrice);
  }

  lemma SecondMergeDiffers(once: seq<VolumeMount>, twice: seq<VolumeMount>)
    requires IsMountMerge(once, [FIRST, SECOND], [OVER_FIRST, OVER_SECOND])
    requires IsMountMerge(twice, once, [OVER_FIRST, OVER_SECOND])
    ensures twice != once
  {
    WitnessKeys();
    TwoEntries(FIRST, SECOND);
    TwoEntries(OVER_FIRST, OVER_SECOND);
    hide MountKey, ByKey;
    assert !KeysKept([FIRST, SECOND], [OVER_FIRST, OVER_SECOND]) by {
      assert "p_q_r_" in ByKey([FIRST, SECOND], MountKey) && "p_q_r_" in ByKey([OVER_FIRST, OVER_SECOND], MountKey);
    }
    MountsTwiceIff([FIRST, SECOND], [OVER_FIRST, OVER_SECOND], once, twice);
  }
}
