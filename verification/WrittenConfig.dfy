/** What a config holds once a reconciliation has written it, and how the stored configs of a run form a history. */
module WrittenConfig {
  import opened Wrappers
  import opened AutomationConfig
  import opened Builder
  import opened Protocol
  import ConfigHistory
  import SemVer

  // ---- The operator's modifications ----

  lemma MongodConfigBenign(extra: Args)
    ensures ConfigHistory.Benign(MongodConfig(extra))
  {}

  lemma TlsConfigBenign(enabled: bool, optional: bool, certificate: string)
    ensures ConfigHistory.Benign(TlsConfig(enabled, optional, certificate))
  {}

  lemma CustomRolesBenign(roles: Option<seq<string>>)
    ensures ConfigHistory.Benign(CustomRoles(roles))
  {}

  lemma InputsBenign(k: Resource, s: Snapshot, auth: Auth, certificate: string)
    requires AcMembers(s) >= 0
    ensures ConfigHistory.AllBenign(BuildInputs(k, s, auth, certificate).modifications)
  {
    MongodConfigBenign(s.spec.extraConfig);
    TlsConfigBenign(s.spec.tls, s.spec.tlsOptional, certificate);
    CustomRolesBenign(s.spec.roles);
  }

  // ---- The written config ----

  /** Every process carries the operator's TLS settings, whatever else was configured. */
  ghost predicate Secured(c: Config) {
    exists optional: bool, certificate: string :: SecuredBy(c.processes, TlsArgs(optional, certificate))
  }

  predicate SecuredBy(ps: seq<Process>, settings: Args) { forall i :: 0 <= i < |ps| ==> Carries(ps[i].args, settings) }

  predicate Carries(args: Args, settings: Args) {
    forall key :: key in settings ==> key in args && args[key] == settings[key]
  }

  /**
   A config written for a snapshot: one process and one member per replica, the snapshot's version, TLS and arbiters.
   */
  ghost predicate Reflects(c: Config, s: Snapshot) {
    && |c.processes| == AcMembers(s)
    && (forall i :: 0 <= i < |c.processes| ==> c.processes[i].version == s.spec.version)
    && (s.spec.tls ==> Secured(c))
    && |c.replicaSets| == 1 && |c.replicaSets[0].members| == AcMembers(s)
    && (forall i :: 0 <= i < AcMembers(s) ==>
          && (c.replicaSets[0].members[i].arbiterOnly <==> if s.spec.arbiters <= 8 then i < s.spec.arbiters else true)
          && c.replicaSets[0].members[i].votes == (if i < 8 then 1 else 0))
  }

  lemma ThreeModifications(a: Modification, b: Modification, c: Modification, x: Config)
    ensures ApplyAll([a, b, c], x) == c(b(a(x)))
  {
    assert [a, b, c][..2] == [a, b] && [a, b][..1] == [a] && [a][..0] == [];
    assert ApplyAll([a], x) == a(x);
    assert ApplyAll([a, b], x) == b(a(x));
  }

  lemma BuiltReflects(k: Resource, previous: Config, s: Snapshot, auth: Auth, certificate: string)
    requires AcMembers(s) >= 0 && Build(k.lib, previous, BuildInputs(k, s, auth, certificate)).Built?
    ensures Reflects(Build(k.lib, previous, BuildInputs(k, s, auth, certificate)).config, s)
  {
    var x := BuildInputs(k, s, auth, certificate);
    var carried := CarriedFcv(k.lib, previous, x.fcv, x.mongodbVersion).value;
    var draft := Draft(k.lib, previous, x, carried);
    var built := Build(k.lib, previous, x).config;
    InputsBenign(k, s, auth, certificate);
    ConfigHistory.ApplyAllBenign(x.modifications, draft, 0);
    assert built.replicaSets == draft.replicaSets;
    var ms := Members(x.name, x.members, x.arbiters, x.horizons);
    MembersVotedInOrder(x.name, x.members, x.arbiters, x.horizons);
    ArbitersArePrefix(ms, x.arbiters);
    EightVote(ms, x.arbiters);
    if s.spec.tls {
      TlsAfterUserConfig(k, s, auth, certificate, draft);
      assert Secured(built);
    }
  }

  /** The operator's TLS settings come after the user's additional configuration and win. */
  lemma TlsAfterUserConfig(k: Resource, s: Snapshot, auth: Auth, certificate: string, draft: Config)
    requires AcMembers(s) >= 0 && s.spec.tls
    ensures SecuredBy(ApplyAll(BuildInputs(k, s, auth, certificate).modifications, draft).processes,
                      TlsArgs(s.spec.tlsOptional, certificate))
  {
    ThreeModifications(MongodConfig(s.spec.extraConfig), TlsConfig(s.spec.tls, s.spec.tlsOptional, certificate),
                       CustomRoles(s.spec.roles), draft);
  }

  /** Reflecting a snapshot is a matter of contents, so what is stored instead of an equal config reflects it too. */
  lemma ReflectsByContent(c: Config, d: Config, s: Snapshot)
    requires AreEqual(c, d) && Reflects(c, s)
    ensures Reflects(d, s)
  {
    AreEqualIffContent(c, d);
    assert Content(c).processes == c.processes && Content(d).processes == d.processes;
    assert |Content(c).replicaSets| == |c.replicaSets| && |Content(d).replicaSets| == |d.replicaSets|;
    var ms, ns := c.replicaSets[0].members, d.replicaSets[0].members;
    assert Content(c).replicaSets[0].members == CanonMembers(ms)
           && Content(d).replicaSets[0].members == CanonMembers(ns);
    assert |ms| == |CanonMembers(ms)| == |ns|;
    forall i | 0 <= i < |ms| ensures ns[i].arbiterOnly == ms[i].arbiterOnly && ns[i].votes == ms[i].votes {
      assert CanonMembers(ms)[i] == CanonMembers(ns)[i];
    }
  }

  /** One config write of the protocol: what is stored, and that it is one step of the config's history. */
  lemma PutAcWrites(k: Resource, w: World, s: Snapshot, auth: Auth, certificate: string)
    requires ConfigHistory.WellStored(w.stored) && AcMembers(s) >= 0
    requires Desired(k, w, s, auth, certificate).Some?
    ensures var e := EnsureSecret(w.stored, Desired(k, w, s, auth, certificate).value);
            && ConfigHistory.WellStored(e.1) && e.1.Holding? && Reflects(e.1.config, s)
            && e.0.version == e.1.config.version
            && e.1 == ConfigHistory.Advance(k.lib, w.stored, BuildInputs(k, s, auth, certificate))
  {
    var x := BuildInputs(k, s, auth, certificate);
    var desired := Desired(k, w, s, auth, certificate).value;
    InputsBenign(k, s, auth, certificate);
    ConfigHistory.AdvanceVersion(k.lib, w.stored, x);
    BuiltReflects(k, Read(w.stored).value, s, auth, certificate);
    var e := EnsureSecret(w.stored, desired);
    AreEqualIffContent(desired, e.0);
    AreEqualIffContent(e.0, e.1.config);
    AreEqualIffContent(desired, e.1.config);
    ReflectsByContent(desired, e.1.config, s);
  }

  // ---- When building succeeds ----

  /** The compatibility version can be settled, and every member of the step has a horizon. */
  predicate Builds(k: Resource, stored: Stored, s: Snapshot) {
    && AcMembers(s) >= 0 && Read(stored).Some?
    && CarriedFcv(k.lib, Read(stored).value, s.spec.fcv, s.spec.version).Ok?
    && HasHorizons(s.spec, AcMembers(s))
  }

  predicate HasHorizons(spec: Spec, members: int) { spec.horizons.Some? ==> members <= |spec.horizons.value| }

  lemma BuildsIff(k: Resource, w: World, s: Snapshot, auth: Auth, certificate: string)
    ensures Desired(k, w, s, auth, certificate).Some? <==> Builds(k, w.stored, s)
  {}

  /**
   Building works now and goes on working: the spec sets the compatibility version, or the stored one parses and is
   either below the server version, so that it is carried over, or can be recomputed from a version of at least 3.4.0.
   */
  predicate FcvLasts(k: Resource, stored: Stored, spec: Spec) {
    spec.fcv != "" || (
      && stored.Holding? && |stored.config.processes| > 0
      && var before, current := k.lib.make(stored.config.processes[0].fcv + ".0"), k.lib.make(spec.version);
         && before.Some? && current.Some?
         && (SemVer.Less(before.value, current.value) || !SemVer.Less(current.value, SemVer.MIN_FCV_VERSION)))
  }

  lemma LastingBuilds(k: Resource, stored: Stored, s: Snapshot)
    requires !stored.Keyless? && AcMembers(s) >= 0 && FcvLasts(k, stored, s.spec) && HasHorizons(s.spec, AcMembers(s))
    ensures Builds(k, stored, s)
  {}

  /** What a config write leaves as compatibility version in every process. */
  lemma PutAcFcv(k: Resource, w: World, s: Snapshot, auth: Auth, certificate: string)
    requires ConfigHistory.WellStored(w.stored) && AcMembers(s) >= 1 && Desired(k, w, s, auth, certificate).Some?
    ensures var e := EnsureSecret(w.stored, Desired(k, w, s, auth, certificate).value);
            var carried := CarriedFcv(k.lib, Read(w.stored).value, s.spec.fcv, s.spec.version);
            && e.1.Holding? && carried.Ok?
            && ConfigHistory.UniformFcv(e.1.config, ProcessFcv(k.lib, carried.value, s.spec.version))
  {
    var x := BuildInputs(k, s, auth, certificate);
    InputsBenign(k, s, auth, certificate);
    PutAcWrites(k, w, s, auth, certificate);
    ConfigHistory.BuiltFcv(k.lib, Read(w.stored).value, x);
    var carried := CarriedFcv(k.lib, Read(w.stored).value, x.fcv, x.mongodbVersion).value;
    ConfigHistory.StoredFcv(k.lib, w.stored, x, ProcessFcv(k.lib, carried, x.mongodbVersion));
  }

  /** A compatibility version that lasts survives the config write. */
  lemma PutAcLasts(k: Resource, w: World, s: Snapshot, auth: Auth, certificate: string)
    requires SemVer.Lawful(k.lib) && ConfigHistory.WellStored(w.stored) && AcMembers(s) >= 1
    requires Desired(k, w, s, auth, certificate).Some? && FcvLasts(k, w.stored, s.spec)
    ensures FcvLasts(k, EnsureSecret(w.stored, Desired(k, w, s, auth, certificate).value).1, s.spec)
  {
    PutAcFcv(k, w, s, auth, certificate);
    hide Desired, EnsureSecret;
    if s.spec.fcv == "" {
      var previous := w.stored.config.processes[0].fcv;
      assert previous != "" by { assert "" + ".0" == ".0"; }
      var l := SemVer.Line(k.lib.make(s.spec.version).value);
      assert k.lib.make(k.lib.format(l) + ".0") == Some(SemVer.Base(l));
    }
  }
}
