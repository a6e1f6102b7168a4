/** What ranging over a map and sorting by key can give: any arrangement of its values that is in order. */
module Arrangement {
  import opened Ordering

  lemma OnceOnly<T>(s: seq<T>, key: T -> string, p: nat)
    requires DistinctKeys(s, key) && p < |s|
    ensures multiset(s)[s[p]] == 1
  {
    assert s == s[..p] + [s[p]] + s[p + 1..];
    assert s[p] !in s[..p] && s[p] !in s[p + 1..];
    assert multiset(s) == multiset(s[..p]) + multiset{s[p]} + multiset(s[p + 1..]);
  }

  lemma TwiceThere<T>(b: seq<T>, i: nat, j: nat)
    requires i < j < |b| && b[i] == b[j]
    ensures multiset(b)[b[i]] >= 2
  {
    assert b == b[..j] + b[j..];
    assert multiset(b) == multiset(b[..j]) + multiset(b[j..]);
    assert b[..j][i] == b[i] && b[j..][0] == b[i];
    assert b[i] in b[..j] && b[i] in b[j..];
  }

  /** A permutation of a list with distinct keys has distinct keys. */
  lemma PermutedDistinct<T>(b: seq<T>, s: seq<T>, key: T -> string)
    requires multiset(b) == multiset(s) && DistinctKeys(s, key)
    ensures DistinctKeys(b, key)
  {
    forall i, j | 0 <= i < j < |b| ensures key(b[i]) != key(b[j]) {
      if key(b[i]) == key(b[j]) {
        assert b[i] in multiset(s) && b[j] in multiset(s);
        var p :| 0 <= p < |s| && s[p] == b[i];
        var q :| 0 <= q < |s| && s[q] == b[j];
        assert p == q;
        OnceOnly(s, key, p);
        TwiceThere(b, i, j);
      }
    }
  }

  /** A list has distinct keys when sorting it gives distinct keys. */
  lemma SortedDistinct<T>(b: seq<T>, key: T -> string)
    requires DistinctKeys(StableSort(b, key), key)
    ensures DistinctKeys(b, key)
  {
    SortContents(b, key);
    PermutedDistinct(b, StableSort(b, key), key);
  }

  /** In key order, and with exactly the values of the map, each as often as the map has it. */
  ghost predicate IsArrangement<T>(xs: seq<T>, m: map<string, T>, key: T -> string) {
    Sorted(xs, key) && multiset(xs) == multiset(Enumerate(m))
  }

  lemma EnumerateTakes<T>(m: map<string, T>) returns (k: string)
    requires m != map[]
    ensures k in m && multiset(Enumerate(m)) == multiset(Enumerate(m - {k})) + multiset{m[k]}
  {
    k :| k in m && Enumerate(m) == Enumerate(m - {k}) + [m[k]];
  }

  /** The values do not depend on the key that is taken out first. */
  lemma {:induction false} EnumerateMinus<T>(m: map<string, T>, k: string)
    requires k in m
    ensures multiset(Enumerate(m)) == multiset(Enumerate(m - {k})) + multiset{m[k]}
    decreases |m|
  {
    hide Enumerate;
    var j := EnumerateTakes(m);
    if j != k {
      Smaller(m, j);
      Smaller(m, k);
      EnumerateMinus(m - {j}, k);
      EnumerateMinus(m - {k}, j);
      assert m - {j} - {k} == m - {k} - {j};
    }
  }

  lemma Smaller<T>(m: map<string, T>, k: string)
    requires k in m
    ensures |m - {k}| < |m|
  {
    assert m.Keys == (m - {k}).Keys + {k};
  }

  lemma {:induction false} EnumerateHas<T>(m: map<string, T>, k: string)
    requires k in m
    ensures m[k] in Enumerate(m)
  {
    EnumerateMinus(m, k);
    assert m[k] in multiset(Enumerate(m));
  }

  lemma {:induction false} EnumerateFrom<T>(m: map<string, T>, x: T) returns (k: string)
    requires x in Enumerate(m)
    ensures k in m && m[k] == x
  {
    var j :| j in m && Enumerate(m) == Enumerate(m - {j}) + [m[j]];
    if x == m[j] { k := j; } else { k := EnumerateFrom(m - {j}, x); }
  }

  lemma ArrangementHas<T>(xs: seq<T>, m: map<string, T>, key: T -> string, k: string)
    requires IsArrangement(xs, m, key) && k in m
    ensures m[k] in xs
  {
    EnumerateHas(m, k);
    assert m[k] in multiset(xs);
  }

  lemma ArrangementFrom<T>(xs: seq<T>, m: map<string, T>, key: T -> string, x: T) returns (k: string)
    requires IsArrangement(xs, m, key) && x in xs
    ensures k in m && m[k] == x
  {
    assert x in multiset(Enumerate(m));
    k := EnumerateFrom(m, x);
  }

  lemma ListingArranges<T>(m: map<string, T>, key: T -> string)
    ensures IsArrangement(Listing(m, key), m, key)
  {
    StableSortSorts(Enumerate(m), key);
    SortContents(Enumerate(m), key);
  }

  lemma SortedStrictly<T>(xs: seq<T>, key: T -> string)
    requires Sorted(xs, key) && DistinctKeys(xs, key)
    ensures StrictlySorted(xs, key)
  {
    forall i, j | 0 <= i < j < |xs| ensures LexLess(key(xs[i]), key(xs[j])) { LexTotal(key(xs[i]), key(xs[j])); }
  }

  /** The values of a keyed map can be arranged in one way only. */
  lemma KeyedArrangement<T>(xs: seq<T>, m: map<string, T>, key: T -> string)
    requires IsArrangement(xs, m, key) && KeyedMap(m, key)
    ensures xs == Listing(m, key)
  {
    EnumerateKeyed(m, key);
    PermutedDistinct(xs, Enumerate(m), key);
    SortedStrictly(xs, key);
    hide Enumerate, Listing, IsArrangement, ByKey;
    forall k | k in ByKey(xs, key) ensures k in m && m[k] == ByKey(xs, key)[k] {
      var i := ByKeyFrom(xs, key, k);
      var j := ArrangementFrom(xs, m, key, xs[i]);
    }
    forall k | k in m ensures k in ByKey(xs, key) {
      ArrangementHas(xs, m, key, k);
      var i :| 0 <= i < |xs| && xs[i] == m[k];
      ByKeyHas(xs, key, i);
    }
    assert ByKey(xs, key) == m;
    ListingUnique(xs, Listing(m, key), m, key);
  }

  // ---- When the arrangement is unique ----

  /** Values with the same key are the same. */
  ghost predicate NoTies<T>(m: map<string, T>, key: T -> string) {
    forall j, k :: j in m && k in m && key(m[j]) == key(m[k]) ==> m[j] == m[k]
  }

  ghost predicate Unique<T(!new)>(m: map<string, T>, key: T -> string) {
    forall xs, ys :: IsArrangement(xs, m, key) && IsArrangement(ys, m, key) ==> xs == ys
  }

  lemma LastOfSorted<T>(xs: seq<T>, key: T -> string, x: T)
    requires Sorted(xs, key) && x in xs
    ensures !LexLess(key(xs[|xs| - 1]), key(x))
  {
    var i :| 0 <= i < |xs| && xs[i] == x;
    LexIrreflexive(key(x));
  }

  lemma SameLast<T>(xs: seq<T>, ys: seq<T>, key: T -> string)
    requires Sorted(xs, key) && Sorted(ys, key) && multiset(xs) == multiset(ys) && xs != [] && ys != []
    ensures key(xs[|xs| - 1]) == key(ys[|ys| - 1])
  {
    var x, y := xs[|xs| - 1], ys[|ys| - 1];
    assert x in multiset(ys) && y in multiset(xs);
    LastOfSorted(xs, key, y);
    LastOfSorted(ys, key, x);
    LexTotal(key(x), key(y));
  }

  /** Two ordered arrangements of the same values are equal when equal keys mean equal values. */
  lemma {:induction false} SameOrder<T>(xs: seq<T>, ys: seq<T>, key: T -> string)
    requires Sorted(xs, key) && Sorted(ys, key) && multiset(xs) == multiset(ys)
    requires forall x, y :: x in xs && y in xs && key(x) == key(y) ==> x == y
    ensures xs == ys
    decreases |xs|
  {
    assert |multiset(xs)| == |xs| && |multiset(ys)| == |ys|;
    if xs != [] {
      var a, b := xs[..|xs| - 1], ys[..|ys| - 1];
      SameLast(xs, ys, key);
      assert ys[|ys| - 1] in multiset(xs);
      assert xs[|xs| - 1] == ys[|ys| - 1];
      SplitLast(xs);
      SplitLast(ys);
      assert multiset(a) == multiset(xs) - multiset{xs[|xs| - 1]};
      assert multiset(b) == multiset(ys) - multiset{ys[|ys| - 1]};
      forall x | x in a ensures x in xs {}
      SameOrder(a, b, key);
    }
  }

  lemma SwapKeeps<T>(xs: seq<T>, i: nat, j: nat, key: T -> string)
    requires Sorted(xs, key) && i < j < |xs| && key(xs[i]) == key(xs[j])
    ensures var ys := xs[i := xs[j]][j := xs[i]]; Sorted(ys, key) && multiset(ys) == multiset(xs)
  {
    var ys := xs[i := xs[j]][j := xs[i]];
    assert forall n :: 0 <= n < |xs| ==> key(ys[n]) == key(xs[n]);
  }

  /** Map iteration order cannot show in the result exactly when no two different values have the same key. */
  lemma UniqueIff<T(!new)>(m: map<string, T>, key: T -> string)
    ensures Unique(m, key) <==> NoTies(m, key)
  {
    if NoTies(m, key) {
      forall xs, ys | IsArrangement(xs, m, key) && IsArrangement(ys, m, key) ensures xs == ys {
        forall x, y | x in xs && y in xs && key(x) == key(y) ensures x == y {
          var j := ArrangementFrom(xs, m, key, x);
          var k := ArrangementFrom(xs, m, key, y);
        }
        SameOrder(xs, ys, key);
      }
    }
    if Unique(m, key) {
      forall j, k | j in m && k in m && key(m[j]) == key(m[k]) ensures m[j] == m[k] {
        TieIsShared(m, key, j, k);
      }
    }
  }

  lemma SwapIsSame<T(!new)>(xs: seq<T>, m: map<string, T>, key: T -> string, p: nat, q: nat)
    requires Unique(m, key) && IsArrangement(xs, m, key) && p < q < |xs| && key(xs[p]) == key(xs[q])
    ensures xs[p] == xs[q]
  {
    hide Enumerate, Sorted;
    SwapKeeps(xs, p, q, key);
    var ys := xs[p := xs[q]][q := xs[p]];
    assert IsArrangement(ys, m, key);
    assert ys[p] == xs[p];
  }

  lemma TieIsShared<T(!new)>(m: map<string, T>, key: T -> string, j: string, k: string)
    requires Unique(m, key) && j in m && k in m && key(m[j]) == key(m[k])
    ensures m[j] == m[k]
  {
    hide Listing, IsArrangement, Unique;
    var xs := Listing(m, key);
    ListingArranges(m, key);
    ArrangementHas(xs, m, key, j);
    ArrangementHas(xs, m, key, k);
    var p :| 0 <= p < |xs| && xs[p] == m[j];
    var q :| 0 <= q < |xs| && xs[q] == m[k];
    if p < q { SwapIsSame(xs, m, key, p, q); }
    if q < p { SwapIsSame(xs, m, key, q, p); }
  }
}
