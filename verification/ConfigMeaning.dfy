/** What a published config says, field by field, in terms of the spec it was published for. */
module ConfigMeaning {
  import opened Wrappers
  import opened AutomationConfig
  import opened ConfigEquality
  import opened Builder
  import opened Protocol
  import opened WrittenConfig
  import opened ProtocolInvariant
  import ConfigHistory

  // ---- Numbers ----

  function Reading(s: string): (n: int) {
    if s == "" then 0 else 10 * Reading(s[..|s| - 1]) + (s[|s| - 1] as int - '0' as int)
  }

  /** Decimal writes numbers so that they read as themselves. */
  lemma {:induction false} DecimalReads(n: nat)
    ensures Reading(Decimal(n)) == n
  {
    var s := Decimal(n);
    if n < 10 {
      assert s[..0] == "";
    } else {
      DecimalReads(n / 10);
      assert s[..|s| - 1] == Decimal(n / 10);
    }
  }

  // ---- Processes ----

  predicate IsTlsKey(key: string) {
    || key == "net.tls.mode" || key == "net.tls.CAFile" || key == "net.tls.certificateKeyFile"
    || key == "net.tls.allowConnectionsWithoutCertificates"
  }

  predicate Sets(args: Args, key: string, value: string) { key in args && args[key] == value }

  /** The mode that requires TLS, or prefers it where the spec makes it optional, and the operator's files. */
  predicate TlsSet(args: Args, optional: bool, certificate: string) {
    && Sets(args, "net.tls.mode", if optional then "preferTLS" else "requireTLS")
    && Sets(args, "net.tls.CAFile", "/var/lib/tls/ca/ca.crt")
    && Sets(args, "net.tls.certificateKeyFile", "/var/lib/tls/server/" + certificate)
    && Sets(args, "net.tls.allowConnectionsWithoutCertificates", "true")
  }

  /**
   The operator's TLS settings, before the user's configuration, before the operator's other settings; nothing else.
   */
  ghost predicate ArgsFor(args: Args, name: string, spec: Spec, certificate: string) {
    && (spec.tls ==> TlsSet(args, spec.tlsOptional, certificate))
    && (forall key :: key in spec.extraConfig && !(spec.tls && IsTlsKey(key)) ==>
        Sets(args, key, spec.extraConfig[key]))
    && ("net.port" !in spec.extraConfig ==> Sets(args, "net.port", "27017"))
    && ("storage.dbPath" !in spec.extraConfig ==> Sets(args, "storage.dbPath", "/data"))
    && ("replication.replSetName" !in spec.extraConfig ==> Sets(args, "replication.replSetName", name))
    && (forall key :: key in args ==>
          || key in spec.extraConfig || (spec.tls && IsTlsKey(key))
          || key == "net.port" || key == "storage.dbPath" || key == "replication.replSetName")
  }

  ghost predicate ProcessFor(p: Process, k: Resource, s: Snapshot, certificate: string, i: nat) {
    && p.name == k.name + "-" + Decimal(i) && p.hostName == p.name + "." + k.domain
    && p.version == s.spec.version && p.authSchemaVersion == 5 && (s.spec.fcv != "" ==> p.fcv == s.spec.fcv)
    && ArgsFor(p.args, k.name, s.spec, certificate)
  }

  /** Member i is process i; the first eight vote and can be elected, and the first so many are arbiters. */
  predicate MemberFor(m: Member, k: Resource, spec: Spec, i: nat) {
    && m.id == i && m.host == k.name + "-" + Decimal(i)
    && m.votes == (if i < 8 then 1 else 0) && m.priority == m.votes
    && (m.arbiterOnly <==> spec.arbiters > 8 || i < spec.arbiters)
    && (spec.horizons.Some? ==> i < |spec.horizons.value|)
    && SameHorizons(m.horizons, if spec.horizons.Some? then Some(spec.horizons.value[i]) else None)
  }

  ghost predicate EndsWithEnt(version: string) { exists rest: string :: version == rest + "-ent" }

  /** All of a config but its number. */
  ghost predicate Describes(c: Config, k: Resource, s: Snapshot, auth: Auth, certificate: string) {
    && |c.processes| == AcMembers(s)
    && (forall i :: 0 <= i < |c.processes| ==> ProcessFor(c.processes[i], k, s, certificate, i))
    && |c.replicaSets| == 1 && c.replicaSets[0].id == k.name && c.replicaSets[0].protocolVersion == "1"
    && |c.replicaSets[0].members| == AcMembers(s)
    && (forall i :: 0 <= i < |c.replicaSets[0].members| ==> MemberFor(c.replicaSets[0].members[i], k, s.spec, i))
    && SameAuth(c.auth, auth)
    && c.tls == Some(Tls(if s.spec.tls then "/var/lib/tls/ca/ca.crt" else "", "OPTIONAL"))
    && |c.versions| == 1 && c.versions[0].name == s.spec.version
    && (c.versions[0].enterprise <==> EndsWithEnt(s.spec.version))
    && c.options == "/var/lib/mongodb-mms-automation" && SameList(c.roles, s.spec.roles)
  }

  lemma EnterpriseIff(version: string)
    ensures IsEnterprise(version) <==> EndsWithEnt(version)
  {
    if IsEnterprise(version) {
      assert version == version[..|version| - 4] + "-ent";
    }
  }

  lemma ModifiedArgs(args: Args, name: string, spec: Spec, certificate: string)
    requires args == map["net.port" := "27017", "storage.dbPath" := "/data", "replication.replSetName" := name]
    ensures var merged := args + spec.extraConfig;
            ArgsFor(if spec.tls then merged + TlsArgs(spec.tlsOptional, certificate)
                    else merged, name, spec, certificate)
  {
    var tls := TlsArgs(spec.tlsOptional, certificate);
    assert forall key :: key in tls <==> IsTlsKey(key);
  }

  /** The processes as built: the operator's arguments, then the user's, then those for TLS. */
  lemma BuiltProcesses(k: Resource, previous: Config, s: Snapshot, auth: Auth, certificate: string, i: nat)
    requires AcMembers(s) >= 0 && i < AcMembers(s)
    requires Build(k.lib, previous, BuildInputs(k, s, auth, certificate)).Built?
    ensures var c := Build(k.lib, previous, BuildInputs(k, s, auth, certificate)).config;
            var carried := CarriedFcv(k.lib, previous, s.spec.fcv, s.spec.version);
            && |c.processes| == AcMembers(s) && carried.Ok?
            && var p := NewProcess(k.name, k.domain, i, ProcessFcv(k.lib, carried.value, s.spec.version),
                                   s.spec.version);
               var merged := p.args + s.spec.extraConfig;
               c.processes[i] ==
               p.(args := if s.spec.tls then merged + TlsArgs(s.spec.tlsOptional, certificate) else merged)
  {
    var x := BuildInputs(k, s, auth, certificate);
    var draft := Draft(k.lib, previous, x, CarriedFcv(k.lib, previous, x.fcv, x.mongodbVersion).value);
    hide NewProcess, TlsArgs, Members, CarriedFcv, ProcessFcv;
    ThreeModifications(MongodConfig(s.spec.extraConfig), TlsConfig(s.spec.tls, s.spec.tlsOptional, certificate),
                       CustomRoles(s.spec.roles), draft);
  }

  lemma BuiltProcess(k: Resource, previous: Config, s: Snapshot, auth: Auth, certificate: string, i: nat)
    requires AcMembers(s) >= 0 && i < AcMembers(s)
    requires Build(k.lib, previous, BuildInputs(k, s, auth, certificate)).Built?
    ensures var c := Build(k.lib, previous, BuildInputs(k, s, auth, certificate)).config;
            |c.processes| == AcMembers(s) && ProcessFor(c.processes[i], k, s, certificate, i)
  {
    BuiltProcesses(k, previous, s, auth, certificate, i);
    hide ArgsFor, TlsArgs, Build, BuildInputs;
    var carried := CarriedFcv(k.lib, previous, s.spec.fcv, s.spec.version).value;
    var p := NewProcess(k.name, k.domain, i, ProcessFcv(k.lib, carried, s.spec.version), s.spec.version);
    ModifiedArgs(p.args, k.name, s.spec, certificate);
  }

  lemma BuiltMember(k: Resource, previous: Config, s: Snapshot, auth: Auth, certificate: string, i: nat)
    requires AcMembers(s) >= 0 && i < AcMembers(s)
    requires Build(k.lib, previous, BuildInputs(k, s, auth, certificate)).Built?
    ensures var c := Build(k.lib, previous, BuildInputs(k, s, auth, certificate)).config;
            && |c.replicaSets| == 1 && |c.replicaSets[0].members| == AcMembers(s)
            && MemberFor(c.replicaSets[0].members[i], k, s.spec, i)
  {
    var x := BuildInputs(k, s, auth, certificate);
    var draft := Draft(k.lib, previous, x, CarriedFcv(k.lib, previous, x.fcv, x.mongodbVersion).value);
    InputsBenign(k, s, auth, certificate);
    ConfigHistory.ApplyAllBenign(x.modifications, draft, 0);
    assert Build(k.lib, previous, x).config.replicaSets == draft.replicaSets;
    hide Build, ApplyAll, Processes, CarriedFcv;
  }

  lemma BuiltRest(k: Resource, previous: Config, s: Snapshot, auth: Auth, certificate: string)
    requires AcMembers(s) >= 0 && Build(k.lib, previous, BuildInputs(k, s, auth, certificate)).Built?
    ensures var c := Build(k.lib, previous, BuildInputs(k, s, auth, certificate)).config;
            && |c.replicaSets| == 1 && c.replicaSets[0].id == k.name && c.replicaSets[0].protocolVersion == "1"
            && |c.replicaSets[0].members| == AcMembers(s) && |c.processes| == AcMembers(s)
            && c.auth == auth && c.tls == Some(Tls(if s.spec.tls then "/var/lib/tls/ca/ca.crt" else "", "OPTIONAL"))
            && c.versions == [VersionConfig(s.spec.version, IsEnterprise(s.spec.version))]
            && c.options == "/var/lib/mongodb-mms-automation" && c.roles == s.spec.roles
  {
    var x := BuildInputs(k, s, auth, certificate);
    var draft := Draft(k.lib, previous, x, CarriedFcv(k.lib, previous, x.fcv, x.mongodbVersion).value);
    ThreeModifications(MongodConfig(s.spec.extraConfig), TlsConfig(s.spec.tls, s.spec.tlsOptional, certificate),
                       CustomRoles(s.spec.roles), draft);
  }

  lemma BuiltDescribes(k: Resource, previous: Config, s: Snapshot, auth: Auth, certificate: string)
    requires AcMembers(s) >= 0 && Build(k.lib, previous, BuildInputs(k, s, auth, certificate)).Built?
    ensures Describes(Build(k.lib, previous, BuildInputs(k, s, auth, certificate)).config, k, s, auth, certificate)
  {
    BuiltRest(k, previous, s, auth, certificate);
    EnterpriseIff(s.spec.version);
    hide Build, BuildInputs, ProcessFor, MemberFor, IsEnterprise, EndsWithEnt;
    var c := Build(k.lib, previous, BuildInputs(k, s, auth, certificate)).config;
    forall i | 0 <= i < |c.processes| ensures ProcessFor(c.processes[i], k, s, certificate, i) {
      BuiltProcess(k, previous, s, auth, certificate, i);
    }
    forall i | 0 <= i < |c.replicaSets[0].members| ensures MemberFor(c.replicaSets[0].members[i], k, s.spec, i) {
      BuiltMember(k, previous, s, auth, certificate, i);
    }
  }

  lemma DescribesSame(c: Config, d: Config, k: Resource, s: Snapshot, auth: Auth, certificate: string)
    requires SameConfig(d, c) && Describes(c, k, s, auth, certificate)
    ensures Describes(d, k, s, auth, certificate)
  {
    hide ProcessFor, EndsWithEnt;
    assert SameSet(d.replicaSets[0], c.replicaSets[0]);
    var ms, ns := c.replicaSets[0].members, d.replicaSets[0].members;
    forall i | 0 <= i < |ns| ensures MemberFor(ns[i], k, s.spec, i) {
      assert MemberFor(ms[i], k, s.spec, i) && SameMember(ns[i], ms[i]);
    }
  }

  /** One config write: what the secret then holds is what the snapshot, the credentials and the certificate say. */
  lemma PutAcDescribes(k: Resource, w: World, s: Snapshot, auth: Auth, certificate: string)
    requires Desired(k, w, s, auth, certificate).Some?
    ensures var e := EnsureSecret(w.stored, Desired(k, w, s, auth, certificate).value);
            e.1.Holding? && Describes(e.1.config, k, s, auth, certificate)
  {
    var desired := Desired(k, w, s, auth, certificate).value;
    BuiltDescribes(k, Read(w.stored).value, s, auth, certificate);
    EnsureStoresDesired(w.stored, desired);
    hide Desired, EnsureSecret, Describes, SameConfig;
    DescribesSame(desired, EnsureSecret(w.stored, desired).1.config, k, s, auth, certificate);
  }

  // ---- Over runs ----

  /** Step p published a config for its snapshot, credentials and certificate, and the config says just that. */
  ghost predicate PublishedAt(k: Resource, w: World, trace: seq<Action>, c: Config, p: nat)
    requires Legal(k, w, trace)
  {
    && p < |trace| && trace[p].PutAc? && StateAt(k, w, trace, p).local.Busy?
    && Describes(c, k, StateAt(k, w, trace, p).local.snap, trace[p].auth, trace[p].certificate)
    && forall j :: p < j < |trace| ==> !trace[j].PutAc?
  }

  lemma PublishedLonger(k: Resource, w: World, trace: seq<Action>, c: Config, p: nat)
    requires Legal(k, w, trace) && trace != [] && Legal(k, w, trace[..|trace| - 1])
    requires PublishedAt(k, w, trace[..|trace| - 1], c, p) && !trace[|trace| - 1].PutAc?
    ensures PublishedAt(k, w, trace, c, p)
  {
    var before := trace[..|trace| - 1];
    assert before[..p] == trace[..p];
    forall j | p < j < |trace| ensures !trace[j].PutAc? {
      if j < |before| { assert before[j] == trace[j]; }
    }
  }

  lemma StoredOnlyByPutAc(k: Resource, v: World, a: Action)
    requires Enabled(k, v, a) && !a.PutAc?
    ensures Apply(k, v, a).stored == v.stored
  {}

  /** In every run the secret holds a config that says what the last config write was given. */
  lemma {:induction false} StoredDescribesLast(k: Resource, spec: Spec, trace: seq<Action>) returns (p: nat)
    requires Legal(k, Init(spec), trace) && Replay(k, Init(spec), trace).stored.Holding?
    ensures PublishedAt(k, Init(spec), trace, Replay(k, Init(spec), trace).stored.config, p)
  {
    var w := Init(spec);
    var before, a := trace[..|trace| - 1], trace[|trace| - 1];
    var v, r := Replay(k, w, before), Replay(k, w, trace);
    assert r == Apply(k, v, a);
    if a.PutAc? {
      p := |before|;
      PutAcDescribes(k, v, v.local.snap, a.auth, a.certificate);
      assert StateAt(k, w, trace, p) == v;
    } else {
      StoredOnlyByPutAc(k, v, a);
      p := StoredDescribesLast(k, spec, before);
      hide Describes, Apply, Enabled;
      PublishedLonger(k, w, trace, r.stored.config, p);
    }
  }
}
