/**
 The shape shared by the keyed list merges of pkg/util/merge: index both lists by key,
 overlay the override on the original, range over the resulting map and sort by key.
 The laws here are about applying such a merge again and again with the same override,
 which is what every reconciliation does to the StatefulSet it finds.
 */
module KeyedMerge {
  import opened Ordering

  /** How one list is merged: the key, the merge of two elements with that key, and the elements considered. */
  datatype Rule<!T> = Rule(key: T -> string, merge: (T, T) -> T, ok: T -> bool)

  ghost predicate AllOk<T>(xs: seq<T>, r: Rule<T>) {
    forall i :: 0 <= i < |xs| ==> r.ok(xs[i])
  }

  /** Merging two elements keeps their key and stays among the elements considered. */
  ghost predicate KeepsKey<T(!new)>(r: Rule<T>) {
    forall a, b | r.ok(a) && r.ok(b) && r.key(a) == r.key(b) ::
      r.ok(r.merge(a, b)) && r.key(r.merge(a, b)) == r.key(b)
  }

  /** From the second application on, merging the same override changes nothing. */
  ghost predicate Settles<T(!new)>(r: Rule<T>) {
    forall a, b | r.ok(a) && r.ok(b) && r.key(a) == r.key(b) ::
      r.merge(r.merge(r.merge(a, b), b), b) == r.merge(r.merge(a, b), b)
  }

  /** An override merged with itself settles after one application. */
  ghost predicate SelfSettles<T(!new)>(r: Rule<T>) {
    forall b | r.ok(b) :: r.merge(r.merge(b, b), b) == r.merge(b, b)
  }

  ghost predicate Lawful<T(!new)>(r: Rule<T>) {
    KeepsKey(r) && Settles(r) && SelfSettles(r)
  }

  function Overlay<T>(original: map<string, T>, override: map<string, T>, merge: (T, T) -> T): (m: map<string, T>)
    ensures m.Keys == original.Keys + override.Keys
  {
    map k | k in original.Keys + override.Keys ::
      if k !in override then original[k]
      else if k in original then merge(original[k], override[k])
      else override[k]
  }

  /** The keyed merge of two lists. */
  ghost function Merge<T>(original: seq<T>, override: seq<T>, key: T -> string, merge: (T, T) -> T): (merged: seq<T>) {
    Listing(Overlay(ByKey(original, key), ByKey(override, key), merge), key)
  }

  ghost predicate OkMap<T>(m: map<string, T>, r: Rule<T>) {
    forall k :: k in m ==> r.ok(m[k]) && r.key(m[k]) == k
  }

  lemma ByKeyOk<T>(xs: seq<T>, r: Rule<T>)
    requires AllOk(xs, r)
    ensures OkMap(ByKey(xs, r.key), r)
  {
    forall k | k in ByKey(xs, r.key) ensures r.ok(ByKey(xs, r.key)[k]) { var i := ByKeyFrom(xs, r.key, k); }
  }

  lemma OverlayOk<T(!new)>(original: map<string, T>, override: map<string, T>, r: Rule<T>)
    requires OkMap(original, r) && OkMap(override, r) && KeepsKey(r)
    ensures OkMap(Overlay(original, override, r.merge), r)
  {}

  /**
   What a keyed merge is: strictly sorted by key, with exactly the union of the keys, and each
   entry the original's, the override's, or the two merged.
   */
  lemma MergeIsListing<T(!new)>(original: seq<T>, override: seq<T>, r: Rule<T>)
    requires AllOk(original, r) && AllOk(override, r) && KeepsKey(r)
    ensures IsListing(Merge(original, override, r.key, r.merge),
                      Overlay(ByKey(original, r.key), ByKey(override, r.key), r.merge), r.key)
    ensures AllOk(Merge(original, override, r.key, r.merge), r)
  {
    ByKeyOk(original, r);
    ByKeyOk(override, r);
    var m := Overlay(ByKey(original, r.key), ByKey(override, r.key), r.merge);
    OverlayOk(ByKey(original, r.key), ByKey(override, r.key), r);
    var xs := Merge(original, override, r.key, r.merge);
    StrictIsDistinct(xs, r.key);
    forall i | 0 <= i < |xs| ensures r.ok(xs[i]) { DistinctByKey(xs, r.key, i); }
  }

  lemma OverlayThrice<T(!new)>(x: map<string, T>, o: map<string, T>, r: Rule<T>)
    requires OkMap(x, r) && OkMap(o, r) && Lawful(r)
    ensures var once := Overlay(x, o, r.merge);
            var twice := Overlay(once, o, r.merge);
            Overlay(twice, o, r.merge) == twice
  {}

  /** The third merge with the same override finds nothing left to do. */
  lemma MergeSettles<T(!new)>(original: seq<T>, override: seq<T>, r: Rule<T>)
    requires AllOk(original, r) && AllOk(override, r) && Lawful(r)
    ensures var twice := Merge(Merge(original, override, r.key, r.merge), override, r.key, r.merge);
            Merge(twice, override, r.key, r.merge) == twice
  {
    var once := Merge(original, override, r.key, r.merge);
    ByKeyOk(original, r);
    ByKeyOk(override, r);
    MergeIsListing(original, override, r);
    MergeIsListing(once, override, r);
    OverlayThrice(ByKey(original, r.key), ByKey(override, r.key), r);
  }

  /** The element is unchanged by one more merge with its override. */
  ghost predicate Stable<T>(original: map<string, T>, override: map<string, T>, r: Rule<T>, k: string)
    requires k in override
  {
    if k in original then
      r.merge(r.merge(original[k], override[k]), override[k]) == r.merge(original[k], override[k])
    else
      r.merge(override[k], override[k]) == override[k]
  }

  ghost predicate AllStable<T>(original: map<string, T>, override: map<string, T>, r: Rule<T>) {
    forall k :: k in override ==> Stable(original, override, r, k)
  }

  lemma OverlayTwiceIff<T>(x: map<string, T>, o: map<string, T>, r: Rule<T>)
    ensures var once := Overlay(x, o, r.merge);
            Overlay(once, o, r.merge) == once <==> AllStable(x, o, r)
  {
    var once := Overlay(x, o, r.merge);
    var twice := Overlay(once, o, r.merge);
    if twice == once {
      forall k | k in o ensures Stable(x, o, r, k) { assert twice[k] == once[k]; }
    }
    if AllStable(x, o, r) {
      forall k | k in once ensures twice[k] == once[k] { if k in o { assert Stable(x, o, r, k); } }
    }
  }

  /** Exactly when the second merge already changes nothing. */
  lemma MergeTwiceIff<T(!new)>(original: seq<T>, override: seq<T>, r: Rule<T>)
    requires AllOk(original, r) && AllOk(override, r) && KeepsKey(r)
    ensures Merge(Merge(original, override, r.key, r.merge), override, r.key, r.merge) ==
            Merge(original, override, r.key, r.merge)
       <==> AllStable(ByKey(original, r.key), ByKey(override, r.key), r)
  {
    MergeIsListing(original, override, r);
    MergeIsListing(Merge(original, override, r.key, r.merge), override, r);
    OverlayTwiceIff(ByKey(original, r.key), ByKey(override, r.key), r);
  }

  /** Merging the same override twice is merging it once. */
  ghost predicate Absorbs<T(!new)>(r: Rule<T>) {
    forall a, b | r.ok(a) && r.ok(b) && r.key(a) == r.key(b) :: r.merge(r.merge(a, b), b) == r.merge(a, b)
  }

  /** Merging an element with itself changes nothing. */
  ghost predicate SelfSame<T(!new)>(r: Rule<T>) {
    forall b | r.ok(b) :: r.merge(b, b) == b
  }

  /** For such elements the list merge absorbs too. */
  lemma MergeAbsorbs<T(!new)>(original: seq<T>, override: seq<T>, r: Rule<T>)
    requires AllOk(original, r) && AllOk(override, r) && KeepsKey(r) && Absorbs(r) && SelfSame(r)
    ensures Merge(Merge(original, override, r.key, r.merge), override, r.key, r.merge) ==
            Merge(original, override, r.key, r.merge)
  {
    ByKeyOk(original, r);
    ByKeyOk(override, r);
    MergeTwiceIff(original, override, r);
  }

  /** A list merged with itself is unchanged exactly when it is in key order and every element is. */
  lemma MergeSelfIff<T(!new)>(xs: seq<T>, r: Rule<T>)
    requires AllOk(xs, r) && KeepsKey(r)
    ensures Merge(xs, xs, r.key, r.merge) == xs
            <==>
            StrictlySorted(xs, r.key) && forall i :: 0 <= i < |xs| ==> r.merge(xs[i], xs[i]) == xs[i]
  {
    var m := ByKey(xs, r.key);
    ByKeyOk(xs, r);
    MergeIsListing(xs, xs, r);
    if StrictlySorted(xs, r.key) {
      StrictIsDistinct(xs, r.key);
      if forall i :: 0 <= i < |xs| ==> r.merge(xs[i], xs[i]) == xs[i] {
        forall k | k in m ensures r.merge(m[k], m[k]) == m[k] { var i := ByKeyFrom(xs, r.key, k); }
        assert Overlay(m, m, r.merge) == m;
        ListingUnique(Merge(xs, xs, r.key, r.merge), xs, m, r.key);
      }
      if Merge(xs, xs, r.key, r.merge) == xs {
        forall i | 0 <= i < |xs| ensures r.merge(xs[i], xs[i]) == xs[i] {
          DistinctByKey(xs, r.key, i);
          assert Overlay(m, m, r.merge)[r.key(xs[i])] == m[r.key(xs[i])];
        }
      }
    }
  }

  /** A merged list depends on neither input's order when keys are distinct: any listing of the same map is it. */
  lemma MergeDetermined<T(!new)>(original: seq<T>, override: seq<T>, r: Rule<T>, result: seq<T>)
    requires AllOk(original, r) && AllOk(override, r) && KeepsKey(r)
    requires IsListing(result, Overlay(ByKey(original, r.key), ByKey(override, r.key), r.merge), r.key)
    ensures result == Merge(original, override, r.key, r.merge)
  {
    MergeIsListing(original, override, r);
    ListingUnique(result, Merge(original, override, r.key, r.merge),
                  Overlay(ByKey(original, r.key), ByKey(override, r.key), r.merge), r.key);
  }
}
