/** Semantic versions in precedence order, and pkg/util/versions. */
module SemVer {
  import opened Wrappers
  import opened Ordering

  datatype PreRelease = Numeric(n: nat) | Alphanumeric(s: string)

  /** Build metadata takes no part in precedence and is left out. */
  datatype Version = Version(major: nat, minor: nat, patch: nat, pre: seq<PreRelease>)

  predicate PreLess(a: PreRelease, b: PreRelease) {
    match (a, b)
    case (Numeric(m), Numeric(n)) => m < n
    case (Numeric(_), Alphanumeric(_)) => true
    case (Alphanumeric(_), Numeric(_)) => false
    case (Alphanumeric(s), Alphanumeric(t)) => LexLess(s, t)
  }

  /** Precedence of pre-release lists when both are present: a prefix comes first. */
  predicate PreListLess(a: seq<PreRelease>, b: seq<PreRelease>) {
    if b == [] then false
    else if a == [] then true
    else PreLess(a[0], b[0]) || (a[0] == b[0] && PreListLess(a[1..], b[1..]))
  }

  /** `b.GT(a)`. A version with a pre-release precedes the version without. */
  predicate Less(a: Version, b: Version) {
    || a.major < b.major
    || (a.major == b.major && a.minor < b.minor)
    || (a.major == b.major && a.minor == b.minor && a.patch < b.patch)
    || (a.major == b.major && a.minor == b.minor && a.patch == b.patch
        && a.pre != [] && (b.pre == [] || PreListLess(a.pre, b.pre)))
  }

  // ---- Precedence is a strict total order ----

  lemma PreTotal(a: PreRelease, b: PreRelease)
    ensures !PreLess(a, a)
    ensures PreLess(a, b) || a == b || PreLess(b, a)
    ensures !(PreLess(a, b) && PreLess(b, a))
  {
    if a.Alphanumeric? { LexIrreflexive(a.s); }
    if a.Alphanumeric? && b.Alphanumeric? {
      LexTotal(a.s, b.s);
      if LexLess(a.s, b.s) && LexLess(b.s, a.s) { LexTransitive(a.s, b.s, a.s); }
    }
  }

  lemma PreTransitive(a: PreRelease, b: PreRelease, c: PreRelease)
    requires PreLess(a, b) && PreLess(b, c)
    ensures PreLess(a, c)
  {
    if a.Alphanumeric? { LexTransitive(a.s, b.s, c.s); }
  }

  lemma {:induction false} PreListIrreflexive(a: seq<PreRelease>)
    ensures !PreListLess(a, a)
  {
    if a != [] {
      PreTotal(a[0], a[0]);
      PreListIrreflexive(a[1..]);
    }
  }

  lemma {:induction false} PreListTotal(a: seq<PreRelease>, b: seq<PreRelease>)
    ensures PreListLess(a, b) || a == b || PreListLess(b, a)
    ensures !(PreListLess(a, b) && PreListLess(b, a))
  {
    if a != [] && b != [] {
      PreTotal(a[0], b[0]);
      PreListTotal(a[1..], b[1..]);
      assert a == [a[0]] + a[1..] && b == [b[0]] + b[1..];
    }
  }

  lemma {:induction false} PreListTransitive(a: seq<PreRelease>, b: seq<PreRelease>, c: seq<PreRelease>)
    requires PreListLess(a, b) && PreListLess(b, c)
    ensures PreListLess(a, c)
  {
    if a != [] {
      if PreLess(a[0], b[0]) && PreLess(b[0], c[0]) { PreTransitive(a[0], b[0], c[0]); }
      if a[0] == b[0] && b[0] == c[0] {
        PreTotal(a[0], a[0]);
        PreListTransitive(a[1..], b[1..], c[1..]);
      }
    }
  }

  /** Exactly one of two versions precedes the other, unless they are the same. */
  lemma LessTotal(a: Version, b: Version)
    ensures !Less(a, a)
    ensures Less(a, b) || a == b || Less(b, a)
    ensures !(Less(a, b) && Less(b, a))
  {
    PreListIrreflexive(a.pre);
    PreListTotal(a.pre, b.pre);
  }

  lemma LessTransitive(a: Version, b: Version, c: Version)
    requires Less(a, b) && Less(b, c)
    ensures Less(a, c)
  {
    if a.pre != [] && b.pre != [] && c.pre != [] && PreListLess(a.pre, b.pre) && PreListLess(b.pre, c.pre) {
      PreListTransitive(a.pre, b.pre, c.pre);
    }
  }

  /** Major, minor and patch numbers come first; of the same three, every pre-release precedes the release. */
  lemma ReleaseOrder(a: Version, b: Version)
    ensures a.major < b.major ==> Less(a, b)
    ensures a.major == b.major && a.minor < b.minor ==> Less(a, b)
    ensures a.major == b.major && a.minor == b.minor && a.patch < b.patch ==> Less(a, b)
    ensures a.(pre := []) == b && a.pre != [] ==> Less(a, b)
    ensures a.(pre := []) == b.(pre := []) && a.pre != [] && |a.pre| < |b.pre| && b.pre[..|a.pre|] == a.pre ==>
            Less(a, b)
  {
    if a.pre != [] && |a.pre| < |b.pre| && b.pre[..|a.pre|] == a.pre { PrefixLess(a.pre, b.pre); }
  }

  lemma {:induction false} PrefixLess(a: seq<PreRelease>, b: seq<PreRelease>)
    requires |a| < |b| && b[..|a|] == a
    ensures PreListLess(a, b)
  {
    if a != [] {
      assert a[0] == b[0] && b[1..][..|a| - 1] == a[1..];
      PrefixLess(a[1..], b[1..]);
    }
  }

  datatype MajorMinor = MajorMinor(major: nat, minor: nat)

  function Line(v: Version): (r: MajorMinor) { MajorMinor(v.major, v.minor) }

  predicate AtMost(a: MajorMinor, b: MajorMinor) {
    a.major < b.major || (a.major == b.major && a.minor <= b.minor)
  }

  function Least(a: MajorMinor, b: MajorMinor): (r: MajorMinor)
    ensures AtMost(r, a) && AtMost(r, b) && (r == a || r == b)
  { if AtMost(a, b) then a else b }

  /** The release x.y.0 of a line. */
  function Base(l: MajorMinor): (v: Version) { Version(l.major, l.minor, 0, []) }

  /** Parsing and formatting are library code: `make` is semver.Make, `format` is Sprintf("%d.%d"). */
  datatype Library = Library(make: string -> Option<Version>, format: MajorMinor -> string)

  /**
   A formatted line is not empty and parses as the line's release once ".0" is appended; the empty string does not.
   */
  ghost predicate Lawful(lib: Library) {
    && (forall l :: lib.format(l) != "" && lib.make(lib.format(l) + ".0") == Some(Base(l)))
    && lib.make(".0") == None
  }

  const MIN_FCV_VERSION := Version(3, 4, 0, [])

  /** CalculateFeatureCompatibilityVersion: empty for an unparsable version and for one below 3.4.0. */
  function CalculateFcv(lib: Library, version: string): (r: string) {
    var v := lib.make(version);
    if v.None? || Less(v.value, MIN_FCV_VERSION) then "" else lib.format(Line(v.value))
  }
}
