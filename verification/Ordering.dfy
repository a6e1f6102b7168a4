/** Go's string order, sort.SliceStable by a string key, and the listing of a keyed map. */
module Ordering {

  /** Go's `<` on strings: lexicographic. */
  predicate LexLess(a: string, b: string) {
    b != "" && (a == "" || a[0] < b[0] || (a[0] == b[0] && LexLess(a[1..], b[1..])))
  }

  lemma {:induction false} LexIrreflexive(a: string)
    ensures !LexLess(a, a)
  {
    if a != "" { LexIrreflexive(a[1..]); }
  }

  lemma {:induction false} LexTransitive(a: string, b: string, c: string)
    requires LexLess(a, b) && LexLess(b, c)
    ensures LexLess(a, c)
  {
    if a != "" && a[0] == b[0] && b[0] == c[0] { LexTransitive(a[1..], b[1..], c[1..]); }
  }

  lemma {:induction false} LexTotal(a: string, b: string)
    ensures LexLess(a, b) || a == b || LexLess(b, a)
  {
    if a != "" && b != "" && a[0] == b[0] {
      LexTotal(a[1..], b[1..]);
      assert a == [a[0]] + a[1..] && b == [b[0]] + b[1..];
    }
  }

  /** Neither element is out of order with any later one. */
  ghost predicate Sorted<T>(xs: seq<T>, key: T -> string) {
    forall i, j :: 0 <= i < j < |xs| ==> !LexLess(key(xs[j]), key(xs[i]))
  }

  ghost predicate StrictlySorted<T>(xs: seq<T>, key: T -> string) {
    forall i, j :: 0 <= i < j < |xs| ==> LexLess(key(xs[i]), key(xs[j]))
  }

  ghost predicate DistinctKeys<T>(xs: seq<T>, key: T -> string) {
    forall i, j :: 0 <= i < j < |xs| ==> key(xs[i]) != key(xs[j])
  }

  /** Puts `x` behind every element that is not greater. */
  function Place<T>(s: seq<T>, x: T, key: T -> string): (r: seq<T>)
    ensures |r| == |s| + 1
  {
    if s != [] && LexLess(key(x), key(s[|s| - 1])) then
      Place(s[..|s| - 1], x, key) + [s[|s| - 1]]
    else
      s + [x]
  }

  /** sort.SliceStable with `key(a) < key(b)` as the order. */
  function StableSort<T>(xs: seq<T>, key: T -> string): (r: seq<T>)
    ensures |r| == |xs|
  {
    if xs == [] then [] else Place(StableSort(xs[..|xs| - 1], key), xs[|xs| - 1], key)
  }

  lemma PlaceUnder<T>(s: seq<T>, x: T, key: T -> string)
    requires s != [] && LexLess(key(x), key(s[|s| - 1]))
    ensures Place(s, x, key) == Place(s[..|s| - 1], x, key) + [s[|s| - 1]]
  {}

  lemma PlaceLast<T>(s: seq<T>, x: T, key: T -> string)
    requires s == [] || !LexLess(key(x), key(s[|s| - 1]))
    ensures Place(s, x, key) == s + [x]
  {}

  lemma SortUnfold<T>(xs: seq<T>, key: T -> string)
    requires xs != []
    ensures StableSort(xs, key) == Place(StableSort(xs[..|xs| - 1], key), xs[|xs| - 1], key)
  {}

  lemma SplitLast<T>(xs: seq<T>)
    requires xs != []
    ensures xs == xs[..|xs| - 1] + [xs[|xs| - 1]]
    ensures multiset(xs) == multiset(xs[..|xs| - 1]) + multiset{xs[|xs| - 1]}
  {
    assert xs == xs[..|xs| - 1] + [xs[|xs| - 1]];
  }

  lemma {:induction false} PlaceContents<T>(s: seq<T>, x: T, key: T -> string)
    ensures multiset(Place(s, x, key)) == multiset(s) + multiset{x}
  {
    hide Place;
    if s != [] && LexLess(key(x), key(s[|s| - 1])) {
      PlaceUnder(s, x, key);
      PlaceContents(s[..|s| - 1], x, key);
      SplitLast(s);
    } else {
      PlaceLast(s, x, key);
    }
  }

  lemma {:induction false} PlaceMember<T>(s: seq<T>, x: T, key: T -> string, i: nat)
    requires i < |s| + 1
    ensures Place(s, x, key)[i] == x || Place(s, x, key)[i] in s
  {
    if s != [] && LexLess(key(x), key(s[|s| - 1])) && i < |s| { PlaceMember(s[..|s| - 1], x, key, i); }
  }

  /** Sorting is a permutation. */
  lemma {:induction false} SortContents<T>(xs: seq<T>, key: T -> string)
    ensures multiset(StableSort(xs, key)) == multiset(xs)
  {
    hide StableSort, Place;
    if xs != [] {
      SortUnfold(xs, key);
      SortContents(xs[..|xs| - 1], key);
      PlaceContents(StableSort(xs[..|xs| - 1], key), xs[|xs| - 1], key);
      SplitLast(xs);
    }
  }

  lemma {:induction false} PlaceSorted<T>(s: seq<T>, x: T, key: T -> string)
    requires Sorted(s, key)
    ensures Sorted(Place(s, x, key), key)
  {
    var r := Place(s, x, key);
    if s != [] && LexLess(key(x), key(s[|s| - 1])) {
      var init, last := s[..|s| - 1], s[|s| - 1];
      PlaceSorted(init, x, key);
      forall i | 0 <= i < |r| - 1 ensures !LexLess(key(last), key(r[i])) {
        PlaceMember(init, x, key, i);
        assert r[i] == Place(init, x, key)[i];
        if r[i] == x {
          if LexLess(key(last), key(x)) { LexTransitive(key(x), key(last), key(x)); LexIrreflexive(key(x)); }
        } else {
          var j :| 0 <= j < |init| && init[j] == r[i];
        }
      }
    } else {
      forall i | 0 <= i < |s| ensures !LexLess(key(x), key(s[i])) {
        if i < |s| - 1 && LexLess(key(x), key(s[i])) {
          LexTotal(key(s[i]), key(s[|s| - 1]));
          if key(s[i]) != key(s[|s| - 1]) { LexTransitive(key(x), key(s[i]), key(s[|s| - 1])); }
        }
      }
    }
  }

  lemma {:induction false} StableSortSorts<T>(xs: seq<T>, key: T -> string)
    ensures Sorted(StableSort(xs, key), key)
  {
    if xs != [] {
      StableSortSorts(xs[..|xs| - 1], key);
      PlaceSorted(StableSort(xs[..|xs| - 1], key), xs[|xs| - 1], key);
    }
  }

  /** Sorting a list that is already in order changes nothing. */
  lemma {:induction false} StableSortIdle<T>(xs: seq<T>, key: T -> string)
    requires Sorted(xs, key)
    ensures StableSort(xs, key) == xs
  {
    if xs != [] {
      var init, last := xs[..|xs| - 1], xs[|xs| - 1];
      assert Sorted(init, key);
      assert init == [] || !LexLess(key(last), key(init[|init| - 1]));
      hide StableSort, Place, LexLess;
      StableSortIdle(init, key);
      SortUnfold(xs, key);
      PlaceLast(init, last, key);
      SplitLast(xs);
    }
  }

  lemma SortedMembers<T>(xs: seq<T>, key: T -> string)
    ensures forall x :: x in StableSort(xs, key) <==> x in xs
  {
    SortContents(xs, key);
    forall x ensures x in StableSort(xs, key) <==> x in xs {
      assert x in StableSort(xs, key) <==> x in multiset(StableSort(xs, key));
      assert x in xs <==> x in multiset(xs);
    }
  }

  /** The Go idiom `m[x.Key] = x` over a slice: the last element with a key wins. */
  function ByKey<T>(xs: seq<T>, key: T -> string): (m: map<string, T>)
    ensures KeyedMap(m, key)
  {
    if xs == [] then map[]
    else ByKey(xs[..|xs| - 1], key)[key(xs[|xs| - 1]) := xs[|xs| - 1]]
  }

  ghost predicate KeyedMap<T>(m: map<string, T>, key: T -> string) {
    forall k :: k in m ==> key(m[k]) == k
  }

  /** Every element's key is in the map. */
  lemma {:induction false} ByKeyHas<T>(xs: seq<T>, key: T -> string, i: nat)
    requires i < |xs|
    ensures key(xs[i]) in ByKey(xs, key)
  {
    if i < |xs| - 1 { ByKeyHas(xs[..|xs| - 1], key, i); }
  }

  /** Every entry of the map is an element of the list. */
  lemma {:induction false} ByKeyFrom<T>(xs: seq<T>, key: T -> string, k: string) returns (i: nat)
    requires k in ByKey(xs, key)
    ensures i < |xs| && xs[i] == ByKey(xs, key)[k] && key(xs[i]) == k
  {
    if k == key(xs[|xs| - 1]) { i := |xs| - 1; }
    else { i := ByKeyFrom(xs[..|xs| - 1], key, k); }
  }

  lemma FreshLast<T>(xs: seq<T>, key: T -> string)
    requires DistinctKeys(xs, key) && xs != []
    ensures key(xs[|xs| - 1]) !in ByKey(xs[..|xs| - 1], key)
  {
    var init, last := xs[..|xs| - 1], xs[|xs| - 1];
    if key(last) in ByKey(init, key) {
      var i := ByKeyFrom(init, key, key(last));
    }
  }

  lemma {:induction false} DistinctByKey<T>(xs: seq<T>, key: T -> string, i: nat)
    requires DistinctKeys(xs, key) && i < |xs|
    ensures key(xs[i]) in ByKey(xs, key) && ByKey(xs, key)[key(xs[i])] == xs[i]
  {
    if i < |xs| - 1 { DistinctByKey(xs[..|xs| - 1], key, i); }
  }

  /** The list that sorting by key makes of a keyed map. */
  ghost predicate IsListing<T>(xs: seq<T>, m: map<string, T>, key: T -> string) {
    StrictlySorted(xs, key) && ByKey(xs, key) == m
  }

  lemma StrictIsDistinct<T>(xs: seq<T>, key: T -> string)
    requires StrictlySorted(xs, key)
    ensures DistinctKeys(xs, key) && Sorted(xs, key)
  {
    forall i, j | 0 <= i < j < |xs| ensures key(xs[i]) != key(xs[j]) && !LexLess(key(xs[j]), key(xs[i])) {
      LexIrreflexive(key(xs[i]));
      if LexLess(key(xs[j]), key(xs[i])) { LexTransitive(key(xs[i]), key(xs[j]), key(xs[i])); }
    }
  }

  lemma LastIsGreatest<T>(xs: seq<T>, m: map<string, T>, key: T -> string, k: string)
    requires IsListing(xs, m, key) && xs != [] && k in m
    ensures k == key(xs[|xs| - 1]) || LexLess(k, key(xs[|xs| - 1]))
  {
    var i := ByKeyFrom(xs, key, k);
  }

  lemma ListingInit<T>(xs: seq<T>, m: map<string, T>, key: T -> string)
    requires IsListing(xs, m, key) && xs != []
    ensures var last := xs[|xs| - 1];
            key(last) in m && m[key(last)] == last && IsListing(xs[..|xs| - 1], m - {key(last)}, key)
  {
    StrictIsDistinct(xs, key);
    FreshLast(xs, key);
    assert ByKey(xs[..|xs| - 1], key) == m - {key(xs[|xs| - 1])};
  }

  /** A keyed map has one listing only, however the list was produced. */
  lemma {:induction false} ListingUnique<T>(xs: seq<T>, ys: seq<T>, m: map<string, T>, key: T -> string)
    requires IsListing(xs, m, key) && IsListing(ys, m, key)
    ensures xs == ys
  {
    if xs == [] {
      if ys != [] { ByKeyHas(ys, key, 0); }
    } else {
      ByKeyHas(xs, key, 0);
      assert ys != [];
      var kx, ky := key(xs[|xs| - 1]), key(ys[|ys| - 1]);
      ListingInit(xs, m, key);
      ListingInit(ys, m, key);
      LastIsGreatest(xs, m, key, ky);
      LastIsGreatest(ys, m, key, kx);
      if kx != ky { LexTransitive(kx, ky, kx); LexIrreflexive(kx); }
      ListingUnique(xs[..|xs| - 1], ys[..|ys| - 1], m - {kx}, key);
      assert xs == xs[..|xs| - 1] + [m[kx]] && ys == ys[..|ys| - 1] + [m[kx]];
    }
  }

  lemma ByKeyAppend<T>(s: seq<T>, x: T, key: T -> string)
    ensures ByKey(s + [x], key) == ByKey(s, key)[key(x) := x]
  {
    assert (s + [x])[..|s|] == s;
  }

  lemma AppendListing<T>(s: seq<T>, x: T, key: T -> string, m: map<string, T>)
    requires IsListing(s, m, key) && key(x) !in m
    requires forall i :: 0 <= i < |s| ==> LexLess(key(s[i]), key(x))
    ensures IsListing(s + [x], m[key(x) := x], key)
  {
    ByKeyAppend(s, x, key);
    hide ByKey, LexLess;
  }

  lemma AboveLast<T>(s: seq<T>, x: T, key: T -> string)
    requires StrictlySorted(s, key) && (s == [] || LexLess(key(s[|s| - 1]), key(x)))
    ensures forall i :: 0 <= i < |s| ==> LexLess(key(s[i]), key(x))
  {
    forall i | 0 <= i < |s| - 1 ensures LexLess(key(s[i]), key(x)) {
      LexTransitive(key(s[i]), key(s[|s| - 1]), key(x));
    }
  }

  lemma PlaceBelow<T>(s: seq<T>, x: T, key: T -> string, top: string)
    requires LexLess(key(x), top)
    requires forall i :: 0 <= i < |s| ==> LexLess(key(s[i]), top)
    ensures forall i :: 0 <= i < |Place(s, x, key)| ==> LexLess(key(Place(s, x, key)[i]), top)
  {
    var p := Place(s, x, key);
    forall i | 0 <= i < |p| ensures LexLess(key(p[i]), top) {
      PlaceMember(s, x, key, i);
      if p[i] != x { var j :| 0 <= j < |s| && s[j] == p[i]; }
    }
  }

  lemma {:induction false} PlaceListing<T>(s: seq<T>, x: T, key: T -> string, m: map<string, T>)
    requires IsListing(s, m, key) && key(x) !in m
    ensures IsListing(Place(s, x, key), m[key(x) := x], key)
  {
    if s == [] {
      AppendListing(s, x, key, m);
    } else {
      var init, last := s[..|s| - 1], s[|s| - 1];
      ListingInit(s, m, key);
      LexTotal(key(last), key(x));
      if LexLess(key(x), key(last)) {
        PlaceListing(init, x, key, m - {key(last)});
        PlaceBelow(init, x, key, key(last));
        AppendListing(Place(init, x, key), last, key, (m - {key(last)})[key(x) := x]);
        assert (m - {key(last)})[key(x) := x][key(last) := last] == m[key(x) := x];
      } else {
        AboveLast(s, x, key);
        AppendListing(s, x, key, m);
      }
    }
  }

  /** Sorting any enumeration of a keyed map gives its listing. */
  lemma {:induction false} SortIsListing<T>(xs: seq<T>, key: T -> string)
    requires DistinctKeys(xs, key)
    ensures IsListing(StableSort(xs, key), ByKey(xs, key), key)
  {
    if xs != [] {
      var init, last := xs[..|xs| - 1], xs[|xs| - 1];
      SortIsListing(init, key);
      FreshLast(xs, key);
      PlaceListing(StableSort(init, key), last, key, ByKey(init, key));
    }
  }

  lemma DistinctAppend<T>(s: seq<T>, x: T, key: T -> string)
    requires DistinctKeys(s, key) && key(x) !in ByKey(s, key)
    ensures DistinctKeys(s + [x], key)
  {
    forall i | 0 <= i < |s| ensures key(s[i]) != key(x) { ByKeyHas(s, key, i); }
  }

  /** Some order in which Go may range over the map. */
  ghost function Enumerate<T>(m: map<string, T>): (xs: seq<T>) {
    if m == map[] then [] else
      var k :| k in m;
      Enumerate(m - {k}) + [m[k]]
  }

  lemma {:induction false} EnumerateKeyed<T>(m: map<string, T>, key: T -> string)
    requires KeyedMap(m, key)
    ensures DistinctKeys(Enumerate(m), key) && ByKey(Enumerate(m), key) == m
  {
    if m != map[] {
      var k :| k in m && Enumerate(m) == Enumerate(m - {k}) + [m[k]];
      EnumerateKeyed(m - {k}, key);
      hide Enumerate, ByKey, DistinctKeys;
      var rest := Enumerate(m - {k});
      DistinctAppend(rest, m[k], key);
      ByKeyAppend(rest, m[k], key);
      assert (m - {k})[k := m[k]] == m;
    }
  }

  /** The listing of a map: range over it, then sort by key. */
  ghost function Listing<T>(m: map<string, T>, key: T -> string): (xs: seq<T>)
    ensures KeyedMap(m, key) ==> IsListing(xs, m, key)
  {
    if KeyedMap(m, key) then
      EnumerateKeyed(m, key);
      SortIsListing(Enumerate(m), key);
      StableSort(Enumerate(m), key)
    else StableSort(Enumerate(m), key)
  }
}
