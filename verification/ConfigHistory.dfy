/** Runs of the automation config: versions, feature compatibility versions, and a second pass over unchanged inputs. */
module ConfigHistory {
  import opened Wrappers
  import opened SemVer
  import opened AutomationConfig
  import opened Builder

  /**
   What the operator's modifications have in common: they neither read nor change the version number, and leave the
   replica sets, the authentication, the listed versions and options, and all of each process but its arguments alone.
   */
  ghost predicate Benign(m: Modification) {
    && (forall c: Config, v: int {:trigger m(c.(version := v))} :: m(c.(version := v)) == m(c).(version := v))
    && (forall c: Config {:trigger m(c)} :: SameFrame(m(c), c))
  }

  predicate SameFrame(c: Config, d: Config) {
    && c.replicaSets == d.replicaSets && c.auth == d.auth && c.versions == d.versions && c.options == d.options
    && |c.processes| == |d.processes|
    && forall i :: 0 <= i < |c.processes| ==> c.processes[i].(args := map[]) == d.processes[i].(args := map[])
  }

  ghost predicate AllBenign(ms: seq<Modification>) { forall i :: 0 <= i < |ms| ==> Benign(ms[i]) }

  lemma {:induction false} ApplyAllBenign(ms: seq<Modification>, c: Config, v: int)
    requires AllBenign(ms)
    ensures ApplyAll(ms, c.(version := v)) == ApplyAll(ms, c).(version := v)
    ensures SameFrame(ApplyAll(ms, c), c)
  {
    if ms != [] {
      var last := ms[|ms| - 1];
      ApplyAllBenign(ms[..|ms| - 1], c, v);
      assert Benign(last);
    }
  }

  lemma ApplyAllVersion(ms: seq<Modification>, c: Config)
    requires AllBenign(ms)
    ensures ApplyAll(ms, c).version == c.version
  {
    ApplyAllBenign(ms, c, c.version);
    assert c.(version := c.version) == c;
  }

  /** One pass: read the secret, build from what it holds, ensure the secret. */
  function Advance(lib: Library, s: Stored, x: Inputs): (r: Stored) {
    var previous := Read(s);
    if previous.None? then s
    else
      match Build(lib, previous.value, x)
      case Built(c) => EnsureSecret(s, c).1
      case Failed(_) => s
      case Panicked => s
  }

  function VersionOf(s: Stored): (v: int) { if s.Holding? then s.config.version else 0 }

  function Run(lib: Library, xs: seq<Inputs>): (s: Stored) {
    if xs == [] then Missing else Advance(lib, Run(lib, xs[..|xs| - 1]), xs[|xs| - 1])
  }

  ghost predicate BenignRun(xs: seq<Inputs>) { forall i :: 0 <= i < |xs| ==> AllBenign(xs[i].modifications) }

  /** What is stored reads back as itself and has a replica set. */
  predicate WellStored(s: Stored) {
    !s.Keyless? && (s.Holding? ==> Canon(s.config) == s.config && |s.config.replicaSets| == 1)
  }

  lemma BuiltFacts(lib: Library, previous: Config, x: Inputs)
    requires AllBenign(x.modifications) && Build(lib, previous, x).Built?
    ensures var c := Build(lib, previous, x).config;
            && |c.replicaSets| == 1 && |c.processes| == x.members
            && c.version == previous.version + (if Content(c) == Content(previous) then 0 else 1)
  {
    var carried := CarriedFcv(lib, previous, x.fcv, x.mongodbVersion).value;
    var draft := Draft(lib, previous, x, carried);
    ApplyAllVersion(x.modifications, draft);
    ApplyAllBenign(x.modifications, draft, 0);
    var c := ApplyAll(x.modifications, draft);
    AreEqualIffContent(previous, c);
    AreEqualIffContent(c, c);
  }

  /** One pass raises the version by exactly one when it changes the contents, and otherwise changes nothing. */
  lemma AdvanceVersion(lib: Library, s: Stored, x: Inputs)
    requires WellStored(s) && AllBenign(x.modifications)
    ensures var t := Advance(lib, s, x);
            && WellStored(t)
            && (t == s || (&& t.Holding? && VersionOf(t) == VersionOf(s) + 1
                           && (s.Holding? ==> Content(t.config) != Content(s.config))))
  {
    var previous := Read(s).value;
    if Build(lib, previous, x).Built? {
      var c := Build(lib, previous, x).config;
      BuiltFacts(lib, previous, x);
      AreEqualIffContent(c, previous);
      CanonTwice(c);
      if s.Missing? { assert |Content(c).replicaSets| == 1 && |Content(previous).replicaSets| == 0; }
    }
  }

  lemma {:induction false} RunWellStored(lib: Library, xs: seq<Inputs>)
    requires BenignRun(xs)
    ensures WellStored(Run(lib, xs)) && VersionOf(Run(lib, xs)) >= 0
    ensures Run(lib, xs).Holding? <==> VersionOf(Run(lib, xs)) >= 1
  {
    if xs != [] {
      RunWellStored(lib, xs[..|xs| - 1]);
      AdvanceVersion(lib, Run(lib, xs[..|xs| - 1]), xs[|xs| - 1]);
    }
  }

  /** The version identifies the contents: it never falls, and while it stands still the stored config is the same. */
  lemma {:induction false} VersionIdentifiesContent(lib: Library, xs: seq<Inputs>, n: nat)
    requires BenignRun(xs) && n <= |xs|
    ensures VersionOf(Run(lib, xs[..n])) <= VersionOf(Run(lib, xs))
    ensures VersionOf(Run(lib, xs[..n])) == VersionOf(Run(lib, xs)) ==> Run(lib, xs[..n]) == Run(lib, xs)
    decreases |xs|
  {
    if n == |xs| {
      assert xs[..n] == xs;
    } else {
      var init := xs[..|xs| - 1];
      VersionIdentifiesContent(lib, init, n);
      assert init[..n] == xs[..n];
      RunWellStored(lib, init);
      AdvanceVersion(lib, Run(lib, init), xs[|xs| - 1]);
    }
  }

  /** The first config stored has version 1, and the version counts the stored configs. */
  lemma {:induction false} VersionCountsChanges(lib: Library, xs: seq<Inputs>)
    requires BenignRun(xs)
    ensures VersionOf(Run(lib, xs)) == Changes(lib, xs)
  {
    if xs != [] {
      var init := xs[..|xs| - 1];
      VersionCountsChanges(lib, init);
      RunWellStored(lib, init);
      AdvanceVersion(lib, Run(lib, init), xs[|xs| - 1]);
    }
  }

  function Changes(lib: Library, xs: seq<Inputs>): (n: nat) {
    if xs == [] then 0
    else
      var init := xs[..|xs| - 1];
      Changes(lib, init) + (if Run(lib, xs) == Run(lib, init) then 0 else 1)
  }

  // ---- Feature compatibility versions ----

  /** The feature compatibility version of a config, that of its first process. */
  function FcvOf(c: Config): (s: string)
    requires |c.processes| > 0
  { c.processes[0].fcv }

  ghost predicate UniformFcv(c: Config, fcv: string) {
    |c.processes| > 0 && forall i :: 0 <= i < |c.processes| ==> c.processes[i].fcv == fcv
  }

  lemma BuiltFcv(lib: Library, previous: Config, x: Inputs)
    requires AllBenign(x.modifications) && x.members >= 1 && Build(lib, previous, x).Built?
    ensures var c := Build(lib, previous, x).config;
            UniformFcv(c, ProcessFcv(lib, CarriedFcv(lib, previous, x.fcv, x.mongodbVersion).value, x.mongodbVersion))
  {
    var carried := CarriedFcv(lib, previous, x.fcv, x.mongodbVersion).value;
    ApplyAllBenign(x.modifications, Draft(lib, previous, x, carried), 0);
  }

  /** No explicit feature compatibility version and a supported server version. */
  ghost predicate Ordinary(lib: Library, x: Inputs) {
    && x.fcv == "" && x.members >= 1 && AllBenign(x.modifications)
    && lib.make(x.mongodbVersion).Some? && !Less(lib.make(x.mongodbVersion).value, MIN_FCV_VERSION)
  }

  /** The build reaches the end: there is a horizon for every member. */
  predicate Completes(x: Inputs) { x.horizons.Some? ==> x.members <= |x.horizons.value| }

  /** The least major.minor among the server versions of the completed builds. */
  ghost function LeastLine(lib: Library, xs: seq<Inputs>): (r: Option<MajorMinor>)
    requires forall i :: 0 <= i < |xs| ==> Ordinary(lib, xs[i])
  {
    if xs == [] then None
    else
      var x := xs[|xs| - 1];
      assert Ordinary(lib, x);
      var before := LeastLine(lib, xs[..|xs| - 1]);
      if !Completes(x) then before
      else
        var line := Line(lib.make(x.mongodbVersion).value);
        Some(if before.Some? then Least(before.value, line) else line)
  }

  /** Comparing a version with x.y.0 compares its line with x.y. */
  lemma LineOrder(l: MajorMinor, v: Version)
    ensures Less(Base(l), v) ==> AtMost(l, Line(v))
    ensures !Less(Base(l), v) ==> AtMost(Line(v), l)
  {}

  lemma OrdinaryStep(lib: Library, previous: Config, l: MajorMinor, x: Inputs)
    requires SemVer.Lawful(lib) && Ordinary(lib, x)
    requires UniformFcv(previous, lib.format(l))
    ensures var v := lib.make(x.mongodbVersion).value;
            var carried := CarriedFcv(lib, previous, x.fcv, x.mongodbVersion);
            carried.Ok? && ProcessFcv(lib, carried.value, x.mongodbVersion) == lib.format(Least(l, Line(v)))
  {
    var v := lib.make(x.mongodbVersion).value;
    assert lib.make(lib.format(l) + ".0") == Some(Base(l));
    LineOrder(l, v);
    assert AtMost(l, Line(v)) && AtMost(Line(v), l) ==> l == Line(v);
  }

  /** Storing keeps the feature compatibility versions of what was built, or had equal contents already. */
  lemma StoredFcv(lib: Library, s: Stored, x: Inputs, fcv: string)
    requires WellStored(s) && AllBenign(x.modifications) && Build(lib, Read(s).value, x).Built?
    requires UniformFcv(Build(lib, Read(s).value, x).config, fcv)
    ensures var t := Advance(lib, s, x); t.Holding? && UniformFcv(t.config, fcv)
  {
    var c := Build(lib, Read(s).value, x).config;
    if s.Holding? && AreEqual(c, s.config) {
      AreEqualIffContent(c, s.config);
      assert Content(c).processes == c.processes && Content(s.config).processes == s.config.processes;
    }
  }

  /** Without explicit settings the feature compatibility version is the least line deployed so far. */
  lemma {:induction false} FcvIsRunningMinimum(lib: Library, xs: seq<Inputs>)
    requires SemVer.Lawful(lib) && forall i :: 0 <= i < |xs| ==> Ordinary(lib, xs[i])
    ensures var s, l := Run(lib, xs), LeastLine(lib, xs);
            && WellStored(s) && (s.Holding? <==> l.Some?)
            && (s.Holding? ==> UniformFcv(s.config, lib.format(l.value)))
  {
    if xs != [] {
      var init, x := xs[..|xs| - 1], xs[|xs| - 1];
      FcvIsRunningMinimum(lib, init);
      var s := Run(lib, init);
      AdvanceVersion(lib, s, x);
      var previous := Read(s).value;
      if s.Holding? { OrdinaryStep(lib, previous, LeastLine(lib, init).value, x); }
      if Completes(x) {
        assert Build(lib, previous, x).Built?;
        BuiltFcv(lib, previous, x);
        var carried := CarriedFcv(lib, previous, x.fcv, x.mongodbVersion).value;
        StoredFcv(lib, s, x, ProcessFcv(lib, carried, x.mongodbVersion));
      }
    }
  }

  /** The line a feature compatibility version names, if it parses. */
  function FcvLine(lib: Library, fcv: string): (r: Option<MajorMinor>) {
    var v := lib.make(fcv + ".0");
    if v.Some? then Some(Line(v.value)) else None
  }

  /** Only the spec can raise it: a build without explicit setting keeps it, lowers it, or leaves it empty. */
  lemma FcvNeverRises(lib: Library, s: Stored, x: Inputs)
    requires SemVer.Lawful(lib) && WellStored(s) && s.Holding? && |s.config.processes| > 0
    requires x.fcv == "" && x.members >= 1 && AllBenign(x.modifications)
    ensures var t := Advance(lib, s, x);
            t == s || (&& t.Holding? && |t.config.processes| > 0
                       && (|| FcvOf(t.config) == "" || FcvOf(t.config) == FcvOf(s.config)
                           || (&& FcvLine(lib, FcvOf(s.config)).Some? && FcvLine(lib, FcvOf(t.config)).Some?
                               && AtMost(FcvLine(lib, FcvOf(t.config)).value, FcvLine(lib, FcvOf(s.config)).value))))
  {
    if Build(lib, s.config, x).Built? {
      BuiltFcv(lib, s.config, x);
      var carried := CarriedFcv(lib, s.config, x.fcv, x.mongodbVersion).value;
      StoredFcv(lib, s, x, ProcessFcv(lib, carried, x.mongodbVersion));
      var t := Advance(lib, s, x);
      assert FcvOf(t.config) == ProcessFcv(lib, carried, x.mongodbVersion);
      if carried == "" && FcvOf(t.config) != "" {
        var v := lib.make(x.mongodbVersion).value;
        assert FcvOf(t.config) == lib.format(Line(v));
        assert FcvLine(lib, lib.format(Line(v))) == Some(Line(v));
        assert "" + ".0" == ".0";
        assert !Less(lib.make(FcvOf(s.config) + ".0").value, v);
      }
    }
  }

  // ---- A second pass over unchanged inputs ----

  /** The feature compatibility version a build gives is what the next build with the same inputs gives. */
  lemma FcvAgain(lib: Library, previous: Config, next: Config, x: Inputs)
    requires SemVer.Lawful(lib) && CarriedFcv(lib, previous, x.fcv, x.mongodbVersion).Ok?
    requires UniformFcv(next, ProcessFcv(lib, CarriedFcv(lib, previous, x.fcv, x.mongodbVersion).value,
                                         x.mongodbVersion))
    ensures var again := CarriedFcv(lib, next, x.fcv, x.mongodbVersion);
            && (again.Ok? <==> x.fcv != "" || (lib.make(FcvOf(next) + ".0").Some? && lib.make(x.mongodbVersion).Some?))
            && (again.Ok? ==> ProcessFcv(lib, again.value, x.mongodbVersion) == FcvOf(next))
  {}

  /** What one pass leaves: the contents it built, under one compatibility version. */
  lemma FirstPass(lib: Library, s: Stored, x: Inputs)
    requires WellStored(s) && AllBenign(x.modifications) && x.members >= 1 && Build(lib, Read(s).value, x).Built?
    ensures var previous := Read(s).value;
            var t := Advance(lib, s, x);
            && CarriedFcv(lib, previous, x.fcv, x.mongodbVersion).Ok? && t.Holding?
            && UniformFcv(t.config, ProcessFcv(lib, CarriedFcv(lib, previous, x.fcv, x.mongodbVersion).value,
                                               x.mongodbVersion))
            && Content(t.config) == Content(Build(lib, previous, x).config)
  {
    var previous := Read(s).value;
    var carried := CarriedFcv(lib, previous, x.fcv, x.mongodbVersion).value;
    var c, t := Build(lib, previous, x).config, Advance(lib, s, x);
    BuiltFcv(lib, previous, x);
    StoredFcv(lib, s, x, ProcessFcv(lib, carried, x.mongodbVersion));
    AreEqualIffContent(c, t.config);
    AreEqualIffContent(c, c);
  }

  /**
   Two builds with the same inputs under the same compatibility version have equal contents; the second keeps the
   version.
   */
  lemma SameBuild(lib: Library, previous: Config, next: Config, x: Inputs)
    requires AllBenign(x.modifications) && Build(lib, previous, x).Built? && Build(lib, next, x).Built?
    requires Content(next) == Content(Build(lib, previous, x).config)
    requires var one := CarriedFcv(lib, previous, x.fcv, x.mongodbVersion).value;
             var two := CarriedFcv(lib, next, x.fcv, x.mongodbVersion).value;
             ProcessFcv(lib, one, x.mongodbVersion) == ProcessFcv(lib, two, x.mongodbVersion)
    ensures var c := Build(lib, next, x).config; AreEqual(c, next) && c.version == next.version
  {
    var one := Draft(lib, previous, x, CarriedFcv(lib, previous, x.fcv, x.mongodbVersion).value);
    var two := Draft(lib, next, x, CarriedFcv(lib, next, x.fcv, x.mongodbVersion).value);
    assert two == one.(version := next.version);
    var c, d := ApplyAll(x.modifications, one), ApplyAll(x.modifications, two);
    ApplyAllBenign(x.modifications, one, next.version);
    ApplyAllVersion(x.modifications, two);
    hide Content, Canon, AreEqual, Draft, ApplyAll;
    AreEqualIffContent(c, c);
    AreEqualIffContent(next, d);
    AreEqualIffContent(d, next);
  }

  /**
   The second pass over unchanged inputs: it succeeds exactly when the spec sets the feature compatibility version
   or the one just stored parses (server versions below 3.4.0 store an empty one), and then it builds equal
   contents under the same version number and writes nothing.
   */
  lemma SecondPass(lib: Library, s: Stored, x: Inputs)
    requires SemVer.Lawful(lib) && WellStored(s) && AllBenign(x.modifications) && x.members >= 1
    requires Build(lib, Read(s).value, x).Built?
    ensures var t := Advance(lib, s, x);
            && t.Holding? && |t.config.processes| > 0
            && (Build(lib, t.config, x).Built? <==>
                x.fcv != "" || (FcvLine(lib, FcvOf(t.config)).Some? && lib.make(x.mongodbVersion).Some?))
            && (Build(lib, t.config, x).Built? ==>
                && AreEqual(Build(lib, t.config, x).config, t.config)
                && Build(lib, t.config, x).config.version == t.config.version)
            && Advance(lib, t, x) == t
  {
    var previous, t := Read(s).value, Advance(lib, s, x);
    FirstPass(lib, s, x);
    FcvAgain(lib, previous, t.config, x);
    hide Content, Canon, AreEqual, Draft, ApplyAll, AllBenign;
    if Build(lib, t.config, x).Built? { SameBuild(lib, previous, t.config, x); }
  }
}
