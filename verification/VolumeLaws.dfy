/** Repeated merging of volumes, label selector requirements, host aliases and tolerations. */
module VolumeLaws {
  import opened Wrappers
  import opened Ordering
  import opened Arrangement
  import opened PodMerge
  import opened PodMergeLaws
  import opened ExtendMerge
  import KM = KeyedMerge

  // ---- Items ----

  lemma ItemsAbsorb(a: seq<KeyToPath>, b: seq<KeyToPath>)
    ensures Items(Items(a, b), b) == Items(a, b) && StrictlySorted(Items(a, b), ItemKey)
  {
    ItemLaws();
    KM.MergeIsListing(a, b, ItemRule());
    KM.MergeAbsorbs(a, b, ItemRule());
  }

  lemma SwapUpdates<T>(m: map<string, T>, j: string, x: T, k: string, y: T)
    requires j != k
    ensures m[j := x][k := y] == m[k := y][j := x]
  {}

  /** A stable sort keeps, for each key, which element comes last. */
  lemma {:induction false} PlaceByKey<T>(s: seq<T>, x: T, key: T -> string)
    ensures ByKey(Place(s, x, key), key) == ByKey(s, key)[key(x) := x]
  {
    if s != [] && LexLess(key(x), key(s[|s| - 1])) {
      var init, last := s[..|s| - 1], s[|s| - 1];
      PlaceUnder(s, x, key);
      PlaceByKey(init, x, key);
      assert s == init + [last];
      hide *;
      ByKeyAppend(Place(init, x, key), last, key);
      ByKeyAppend(init, last, key);
      LexIrreflexive(key(x));
      SwapUpdates(ByKey(init, key), key(x), x, key(last), last);
    } else {
      ByKeyAppend(s, x, key);
    }
  }

  lemma {:induction false} SortByKey<T>(xs: seq<T>, key: T -> string)
    ensures ByKey(StableSort(xs, key), key) == ByKey(xs, key)
  {
    if xs != [] {
      SortByKey(xs[..|xs| - 1], key);
      PlaceByKey(StableSort(xs[..|xs| - 1], key), xs[|xs| - 1], key);
    }
  }

  /** So representing Items in key order does not change what a merge makes of them. */
  lemma ItemsTidy(a: seq<KeyToPath>, b: seq<KeyToPath>)
    ensures Items(StableSort(a, ItemKey), b) == Items(a, b) && Items(a, StableSort(b, ItemKey)) == Items(a, b)
  {
    SortByKey(a, ItemKey);
    SortByKey(b, ItemKey);
  }

  /** Merging a list of items with itself only drops repeated keys. */
  lemma ItemsWithSelf(b: seq<KeyToPath>)
    ensures IsListing(Items(b, b), ByKey(b, ItemKey), ItemKey)
    ensures Items(b, b) == StableSort(b, ItemKey) <==> DistinctKeys(b, ItemKey)
  {
    ItemLaws();
    var m := ByKey(b, ItemKey);
    KM.MergeIsListing(b, b, ItemRule());
    assert KM.Overlay(m, m, MergeItem) == m by {
      forall k | k in m ensures MergeItem(m[k], m[k]) == m[k] { Union(m[k].fields, m[k].fields); }
    }
    if DistinctKeys(b, ItemKey) {
      SortIsListing(b, ItemKey);
      ListingUnique(Items(b, b), StableSort(b, ItemKey), m, ItemKey);
    }
    if Items(b, b) == StableSort(b, ItemKey) {
      StrictIsDistinct(Items(b, b), ItemKey);
      SortedDistinct(b, ItemKey);
    }
  }

  // ---- Volumes ----

  lemma TidyIdle(p: Projection)
    requires Sorted(p.items, ItemKey)
    ensures TidyProjection(Some(p)) == Some(p)
  { StableSortIdle(p.items, ItemKey); }

  lemma TidyTwice(v: Volume)
    ensures TidyVolume(TidyVolume(v)) == TidyVolume(v)
  {
    if v.source.secret.Some? {
      StableSortSorts(v.source.secret.value.items, ItemKey);
      TidyIdle(TidyProjection(v.source.secret).value);
    }
    if v.source.configMap.Some? {
      StableSortSorts(v.source.configMap.value.items, ItemKey);
      TidyIdle(TidyProjection(v.source.configMap).value);
    }
  }

  lemma ProjectionAbsorbs(a: Projection, b: Projection)
    ensures MergeProjection(MergeProjection(a, b), b) == MergeProjection(a, b)
    ensures TidyProjection(Some(MergeProjection(a, b))) == Some(MergeProjection(a, b))
    ensures MergeProjection(TidyProjection(Some(a)).value, b) == MergeProjection(a, b)
  {
    Union(a.fields, b.fields);
    ItemsAbsorb(a.items, b.items);
    StrictIsDistinct(Items(a.items, b.items), ItemKey);
    TidyIdle(MergeProjection(a, b));
    ItemsTidy(a.items, b.items);
  }

  /** Merged with an override of a kind it shares, a volume absorbs that override. */
  lemma SharedAbsorbs(v: Volume, b: Volume)
    requires SharedKind(v.source, b.source)
    ensures var m := TidyVolume(MergeVolume(v, b));
            SharedKind(m.source, b.source) && TidyVolume(MergeVolume(m, b)) == m
  {
    hide Items, MergeProjection;
    var m := TidyVolume(MergeVolume(v, b));
    TidyTwice(MergeVolume(v, b));
    if v.source.emptyDir.Some? && b.source.emptyDir.Some? {
      Union(v.source.emptyDir.value, b.source.emptyDir.value);
    } else if v.source.secret.Some? && b.source.secret.Some? {
      ProjectionAbsorbs(v.source.secret.value, b.source.secret.value);
    } else {
      ProjectionAbsorbs(v.source.configMap.value, b.source.configMap.value);
    }
  }

  /** The items that merging the source with itself would rewrite. */
  ghost function RewrittenItems(s: VolumeSource): (items: seq<KeyToPath>) {
    if s.emptyDir.Some? then [] else if s.secret.Some? then s.secret.value.items
    else if s.configMap.Some? then s.configMap.value.items else []
  }

  /** A volume replaced by the override's source is final exactly when that source repeats no item key. */
  lemma ReplacedQuietIff(v: Volume, b: Volume)
    requires !SharedKind(v.source, b.source)
    ensures var m := TidyVolume(MergeVolume(v, b));
            (TidyVolume(MergeVolume(m, b)) == m <==> DistinctKeys(RewrittenItems(b.source), ItemKey))
  {
    hide Items;
    var m := TidyVolume(MergeVolume(v, b));
    assert m.source == TidySource(b.source);
    TidyTwice(v.(source := b.source));
    var s := b.source;
    if s.emptyDir.Some? {
      Union(s.emptyDir.value, s.emptyDir.value);
    } else if s.secret.Some? {
      SelfProjection(s.secret.value);
    } else if s.configMap.Some? {
      SelfProjection(s.configMap.value);
    }
  }

  lemma SelfProjection(p: Projection)
    ensures var t := TidyProjection(Some(p)).value;
            var merged := TidyProjection(Some(MergeProjection(t, p)));
            (merged == Some(t) <==> DistinctKeys(p.items, ItemKey))
  {
    var t := TidyProjection(Some(p)).value;
    Union(p.fields, p.fields);
    ProjectionAbsorbs(p, p);
    ItemsWithSelf(p.items);
  }

  lemma StepQuiet(v: Volume, b: Volume)
    ensures var twice := TidyVolume(MergeVolume(TidyVolume(MergeVolume(v, b)), b));
            TidyVolume(MergeVolume(twice, b)) == twice
  {
    hide Items, MergeProjection;
    var m := TidyVolume(MergeVolume(v, b));
    if SharedKind(m.source, b.source) {
      SharedAbsorbs(m, b);
    } else {
      // m took b's source, so b has no kind that could be shared
      NoKindToShare(v, b);
      TidyTwice(v.(source := b.source));
    }
  }

  lemma StepQuietLate(bs: map<string, Volume>, v: Volume)
    ensures var twice := StepVolume(bs, StepVolume(bs, v)); StepVolume(bs, twice) == twice
  {
    hide MergeVolume, TidySource;
    if v.name in bs {
      StepQuiet(v, bs[v.name]);
    } else {
      TidyTwice(v);
      TidyTwice(TidyVolume(v));
    }
  }

  /** After two in-place merges a volume is final. */
  lemma VolumeQuietLate(o: seq<Volume>, v: Volume)
    ensures Quiet(VolumeInPlace(o)(VolumeInPlace(o)(v)), VolumeInPlace(o))
  {
    hide StepVolume;
    StepQuietLate(ByKey(o, VolumeKey), v);
  }

  lemma NoKindToShare(v: Volume, b: Volume)
    requires !SharedKind(TidyVolume(MergeVolume(v, b)).source, b.source)
    ensures MergeVolume(v, b) == v.(source := b.source)
            && MergeVolume(TidyVolume(MergeVolume(v, b)), b) == v.(source := b.source)
    ensures TidyVolume(MergeVolume(v, b)).source == b.source
  {}

  /**
   An override-only volume is final at the second merge: it shares a kind with the last override of its name, or that
   one repeats no item key.
   */
  ghost predicate Compatible(v: Volume, o: seq<Volume>) {
    v.name in ByKey(o, VolumeKey) ==>
      var b := ByKey(o, VolumeKey)[v.name];
      SharedKind(v.source, b.source) || DistinctKeys(RewrittenItems(b.source), ItemKey)
  }

  lemma CompatibleIff(o: seq<Volume>, v: Volume)
    ensures Quiet(VolumeInPlace(o)(TidyVolume(v)), VolumeInPlace(o)) <==> Compatible(v, o)
  {
    var t := TidyVolume(v);
    if v.name in ByKey(o, VolumeKey) {
      var b := ByKey(o, VolumeKey)[v.name];
      if SharedKind(v.source, b.source) { SharedAbsorbs(t, b); } else { ReplacedQuietIff(t, b); }
    } else {
      TidyTwice(v);
    }
  }

  lemma VolumeStepLaws(o: seq<Volume>)
    ensures SameKey(VolumeInPlace(o), VolumeKey) && SameKey(TidyVolume, VolumeKey)
    ensures forall v :: Quiet(VolumeInPlace(o)(VolumeInPlace(o)(v)), VolumeInPlace(o))
  {
    forall v ensures Quiet(VolumeInPlace(o)(VolumeInPlace(o)(v)), VolumeInPlace(o)) { VolumeQuietLate(o, v); }
  }

  /** Every override volume whose name the original lacks is compatible. */
  ghost predicate VolumesCompatible(x: seq<Volume>, o: seq<Volume>) {
    forall v :: v in o && VolumeKey(v) !in ByKey(x, VolumeKey) ==> Compatible(v, o)
  }

  /** Exactly when volumes settle at the second merge. */
  lemma VolumesSettleIff(x: seq<Volume>, o: seq<Volume>)
    ensures Volumes(Volumes(Volumes(x, o), o), o) == Volumes(Volumes(x, o), o) <==> VolumesCompatible(x, o)
  {
    VolumeStepLaws(o);
    ExtendSettlesIff(x, o, VolumeKey, VolumeInPlace(o), TidyVolume);
    forall v ensures Quiet(VolumeInPlace(o)(TidyVolume(v)), VolumeInPlace(o)) <==> Compatible(v, o) {
      CompatibleIff(o, v);
    }
  }

  /** In any case volumes settle at the third merge. */
  lemma VolumesSettleLate(x: seq<Volume>, o: seq<Volume>)
    ensures var thrice := Volumes(Volumes(Volumes(x, o), o), o); Volumes(thrice, o) == thrice
  {
    VolumeStepLaws(o);
    ExtendSettlesLate(x, o, VolumeKey, VolumeInPlace(o), TidyVolume);
  }
}
