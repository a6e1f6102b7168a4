/**
 The other list shape of pkg/util/merge, used for volumes and label selector requirements: every
 original element is merged in place, override elements with a new key are appended, and the whole
 list, which may repeat keys, is sorted stably.
 */
module ExtendMerge {
  import opened Ordering

  function Apply<T>(xs: seq<T>, g: T -> T): (r: seq<T>)
    ensures |r| == |xs| && forall i :: 0 <= i < |xs| ==> r[i] == g(xs[i])
  {
    seq(|xs|, i requires 0 <= i < |xs| => g(xs[i]))
  }

  /** The elements of `override` whose key is not a key of `known`. */
  function Absent<T(!new)>(override: seq<T>, known: map<string, T>, key: T -> string): (r: seq<T>)
    ensures forall x :: x in r <==> x in override && key(x) !in known
  {
    if override == [] then []
    else
      var last := override[|override| - 1];
      assert override == override[..|override| - 1] + [last];
      var rest := Absent(override[..|override| - 1], known, key);
      if key(last) in known then rest else rest + [last]
  }

  function Extend<T(!new)>(original: seq<T>, override: seq<T>, key: T -> string, inPlace: T -> T, appended: T -> T)
    : (r: seq<T>)
  {
    StableSort(Apply(original, inPlace) + Apply(Absent(override, ByKey(original, key), key), appended), key)
  }

  ghost predicate SameKey<T(!new)>(g: T -> T, key: T -> string) {
    forall e :: key(g(e)) == key(e)
  }

  ghost predicate Covers<T>(xs: seq<T>, override: seq<T>, key: T -> string) {
    forall o :: o in override ==> exists i :: 0 <= i < |xs| && key(xs[i]) == key(o)
  }

  lemma ApplyMembers<T>(xs: seq<T>, g: T -> T, e: T)
    ensures e in Apply(xs, g) <==> exists x :: x in xs && e == g(x)
  {
    if e in Apply(xs, g) {
      var i :| 0 <= i < |xs| && Apply(xs, g)[i] == e;
      assert xs[i] in xs;
    }
    if x :| x in xs && e == g(x) {
      var i :| 0 <= i < |xs| && xs[i] == x;
      assert Apply(xs, g)[i] == e;
    }
  }

  /** The members of the merged list: merged originals and appended overrides. */
  lemma ExtendMembers<T(!new)>(original: seq<T>, override: seq<T>, key: T -> string, inPlace: T -> T,
                               appended: T -> T, e: T)
    ensures e in Extend(original, override, key, inPlace, appended)
            <==>
            ((exists x :: x in original && e == inPlace(x))
             || (exists o :: o in override && key(o) !in ByKey(original, key) && e == appended(o)))
  {
    var absent := Absent(override, ByKey(original, key), key);
    SortedMembers(Apply(original, inPlace) + Apply(absent, appended), key);
    ApplyMembers(original, inPlace, e);
    ApplyMembers(absent, appended, e);
  }

  lemma ExtendCovers<T(!new)>(original: seq<T>, override: seq<T>, key: T -> string, inPlace: T -> T, appended: T -> T)
    requires SameKey(inPlace, key) && SameKey(appended, key)
    ensures var r := Extend(original, override, key, inPlace, appended); Sorted(r, key) && Covers(r, override, key)
  {
    var r := Extend(original, override, key, inPlace, appended);
    StableSortSorts(Apply(original, inPlace) + Apply(Absent(override, ByKey(original, key), key), appended), key);
    forall o | o in override ensures exists i :: 0 <= i < |r| && key(r[i]) == key(o) {
      var e: T;
      if key(o) in ByKey(original, key) {
        var i := ByKeyFrom(original, key, key(o));
        e := inPlace(original[i]);
      } else {
        e := appended(o);
      }
      ExtendMembers(original, override, key, inPlace, appended, e);
      var i :| 0 <= i < |r| && r[i] == e;
    }
  }

  lemma ApplyKeeps<T(!new)>(xs: seq<T>, override: seq<T>, key: T -> string, g: T -> T)
    requires SameKey(g, key) && Sorted(xs, key) && Covers(xs, override, key)
    ensures Sorted(Apply(xs, g), key) && Covers(Apply(xs, g), override, key)
  {
    var r := Apply(xs, g);
    forall o | o in override ensures exists i :: 0 <= i < |r| && key(r[i]) == key(o) {
      var i :| 0 <= i < |xs| && key(xs[i]) == key(o);
      assert key(r[i]) == key(o);
    }
  }

  /** On a sorted list that already has every override key, the merge only merges in place. */
  lemma ExtendInPlace<T(!new)>(xs: seq<T>, override: seq<T>, key: T -> string, inPlace: T -> T, appended: T -> T)
    requires SameKey(inPlace, key) && Sorted(xs, key) && Covers(xs, override, key)
    ensures Extend(xs, override, key, inPlace, appended) == Apply(xs, inPlace)
  {
    var absent := Absent(override, ByKey(xs, key), key);
    if absent != [] {
      var o := absent[0];
      assert o in absent;
      var i :| 0 <= i < |xs| && key(xs[i]) == key(o);
      ByKeyHas(xs, key, i);
    }
    ApplyKeeps(xs, override, key, inPlace);
    assert Apply(xs, inPlace) + [] == Apply(xs, inPlace);
    StableSortIdle(Apply(xs, inPlace), key);
  }

  /** The second and third merges with the same override, element by element. */
  lemma ExtendRepeated<T(!new)>(original: seq<T>, override: seq<T>, key: T -> string, inPlace: T -> T, appended: T -> T)
    requires SameKey(inPlace, key) && SameKey(appended, key)
    ensures var once := Extend(original, override, key, inPlace, appended);
            var twice := Extend(once, override, key, inPlace, appended);
            && twice == Apply(once, inPlace)
            && Extend(twice, override, key, inPlace, appended) == Apply(twice, inPlace)
  {
    var once := Extend(original, override, key, inPlace, appended);
    ExtendCovers(original, override, key, inPlace, appended);
    ExtendInPlace(once, override, key, inPlace, appended);
    ApplyKeeps(once, override, key, inPlace);
    ExtendInPlace(Apply(once, inPlace), override, key, inPlace, appended);
  }

  /** The element does not change when merged in place once more. */
  ghost predicate Quiet<T>(e: T, inPlace: T -> T) {
    inPlace(e) == e
  }

  /** Exactly when the third merge changes nothing. */
  lemma ExtendSettlesIff<T(!new)>(original: seq<T>, override: seq<T>, key: T -> string, inPlace: T -> T,
                                  appended: T -> T)
    requires SameKey(inPlace, key) && SameKey(appended, key)
    requires forall e :: Quiet(inPlace(inPlace(e)), inPlace)
    ensures var twice := Extend(Extend(original, override, key, inPlace, appended), override, key, inPlace, appended);
            (Extend(twice, override, key, inPlace, appended) == twice
             <==>
             forall o :: o in override && key(o) !in ByKey(original, key) ==> Quiet(inPlace(appended(o)), inPlace))
  {
    var once := Extend(original, override, key, inPlace, appended);
    ExtendRepeated(original, override, key, inPlace, appended);
    var twice := Apply(once, inPlace);
    var thrice := Apply(twice, inPlace);
    if thrice == twice {
      forall o | o in override && key(o) !in ByKey(original, key) ensures Quiet(inPlace(appended(o)), inPlace) {
        ExtendMembers(original, override, key, inPlace, appended, appended(o));
        var i :| 0 <= i < |once| && once[i] == appended(o);
        assert thrice[i] == twice[i];
      }
    }
    if forall o :: o in override && key(o) !in ByKey(original, key) ==> Quiet(inPlace(appended(o)), inPlace) {
      forall i | 0 <= i < |once| ensures thrice[i] == twice[i] {
        ExtendMembers(original, override, key, inPlace, appended, once[i]);
        if x :| x in original && once[i] == inPlace(x) {
          assert Quiet(inPlace(inPlace(x)), inPlace);
        } else {
          var o :| o in override && key(o) !in ByKey(original, key) && once[i] == appended(o);
          assert Quiet(inPlace(appended(o)), inPlace);
        }
      }
    }
  }

  /** Whatever the override, the fourth merge equals the third. */
  lemma ExtendSettlesLate<T(!new)>(original: seq<T>, override: seq<T>, key: T -> string, inPlace: T -> T,
                                   appended: T -> T)
    requires SameKey(inPlace, key) && SameKey(appended, key)
    requires forall e :: Quiet(inPlace(inPlace(e)), inPlace)
    ensures var once := Extend(original, override, key, inPlace, appended);
            var thrice := Extend(Extend(once, override, key, inPlace, appended), override, key, inPlace, appended);
            Extend(thrice, override, key, inPlace, appended) == thrice
  {
    var once := Extend(original, override, key, inPlace, appended);
    ExtendRepeated(original, override, key, inPlace, appended);
    ExtendRepeated(once, override, key, inPlace, appended);
    var thrice := Apply(Apply(once, inPlace), inPlace);
    forall i | 0 <= i < |once| ensures inPlace(thrice[i]) == thrice[i] {
      assert Quiet(inPlace(inPlace(once[i])), inPlace);
    }
    assert Apply(thrice, inPlace) == thrice;
  }

  /** Exactly when the second merge already changes nothing. */
  lemma ExtendTwiceIff<T(!new)>(original: seq<T>, override: seq<T>, key: T -> string, inPlace: T -> T, appended: T -> T)
    requires SameKey(inPlace, key) && SameKey(appended, key)
    ensures var once := Extend(original, override, key, inPlace, appended);
            (Extend(once, override, key, inPlace, appended) == once
             <==>
             && (forall x :: x in original ==> Quiet(inPlace(x), inPlace))
             && (forall o :: o in override && key(o) !in ByKey(original, key) ==> Quiet(appended(o), inPlace)))
  {
    var once := Extend(original, override, key, inPlace, appended);
    ExtendRepeated(original, override, key, inPlace, appended);
    hide Extend;
    if Apply(once, inPlace) == once {
      forall x | x in original ensures Quiet(inPlace(x), inPlace) {
        ExtendMembers(original, override, key, inPlace, appended, inPlace(x));
        QuietMember(once, inPlace, inPlace(x));
      }
      forall o | o in override && key(o) !in ByKey(original, key) ensures Quiet(appended(o), inPlace) {
        ExtendMembers(original, override, key, inPlace, appended, appended(o));
        QuietMember(once, inPlace, appended(o));
      }
    }
    if (forall x :: x in original ==> Quiet(inPlace(x), inPlace))
       && (forall o :: o in override && key(o) !in ByKey(original, key) ==> Quiet(appended(o), inPlace)) {
      forall i | 0 <= i < |once| ensures inPlace(once[i]) == once[i] {
        ExtendMembers(original, override, key, inPlace, appended, once[i]);
      }
      assert Apply(once, inPlace) == once;
    }
  }

  lemma QuietMember<T>(once: seq<T>, inPlace: T -> T, e: T)
    requires Apply(once, inPlace) == once && e in once
    ensures Quiet(e, inPlace)
  {
    var i :| 0 <= i < |once| && once[i] == e;
    assert Apply(once, inPlace)[i] == once[i];
  }

  lemma ApplyConcat<T>(a: seq<T>, b: seq<T>, g: T -> T)
    ensures Apply(a + b, g) == Apply(a, g) + Apply(b, g)
  {}

  lemma {:induction false} PlaceApply<T(!new)>(s: seq<T>, x: T, key: T -> string, g: T -> T)
    requires SameKey(g, key)
    ensures Apply(Place(s, x, key), g) == Place(Apply(s, g), g(x), key)
  {
    if s != [] && LexLess(key(x), key(s[|s| - 1])) {
      var init, last := s[..|s| - 1], s[|s| - 1];
      PlaceApply(init, x, key, g);
      assert Apply(s, g)[..|s| - 1] == Apply(init, g);
      ApplyConcat(Place(init, x, key), [last], g);
      assert Apply([last], g) == [g(last)];
    } else {
      ApplyConcat(s, [x], g);
      assert Apply([x], g) == [g(x)];
    }
  }

  /** Sorting commutes with a change that keeps keys. */
  lemma {:induction false} SortApply<T(!new)>(xs: seq<T>, key: T -> string, g: T -> T)
    requires SameKey(g, key)
    ensures Apply(StableSort(xs, key), g) == StableSort(Apply(xs, g), key)
  {
    if xs != [] {
      var init, last := xs[..|xs| - 1], xs[|xs| - 1];
      var ys := Apply(xs, g);
      assert ys != [] && ys[..|ys| - 1] == Apply(init, g) && ys[|ys| - 1] == g(last);
      SortApply(init, key, g);
      PlaceApply(StableSort(init, key), last, key, g);
      SortUnfold(ys, key);
      SortUnfold(xs, key);
      hide *;
    }
  }
}
