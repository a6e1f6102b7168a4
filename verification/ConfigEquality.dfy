/** What comparing and storing configs means, field by field and without the encoding. */
module ConfigEquality {
  import opened Wrappers
  import opened AutomationConfig
  import opened Builder

  predicate NilOrEmpty<T>(xs: Option<seq<T>>) { xs.None? || |xs.value| == 0 }

  /** The same list, where nil and empty are the same. */
  predicate SameList<T(==)>(xs: Option<seq<T>>, ys: Option<seq<T>>) { xs == ys || (NilOrEmpty(xs) && NilOrEmpty(ys)) }

  predicate NoHorizons(h: Option<Horizons>) { h.None? || h.value == map[] }

  predicate SameHorizons(g: Option<Horizons>, h: Option<Horizons>) { g == h || (NoHorizons(g) && NoHorizons(h)) }

  predicate SameAuth(a: Auth, b: Auth) {
    && SameList(a.users, b.users) && SameList(a.autoAuthMechanisms, b.autoAuthMechanisms)
    && SameList(a.deploymentAuthMechanisms, b.deploymentAuthMechanisms)
    && a.disabled == b.disabled && a.authoritativeSet == b.authoritativeSet
    && a.autoAuthMechanism == b.autoAuthMechanism
    && a.autoUser == b.autoUser && a.key == b.key && a.keyFile == b.keyFile && a.keyFileWindows == b.keyFileWindows
    && a.autoPwd == b.autoPwd
  }

  predicate SameMember(m: Member, n: Member) {
    && m.id == n.id && m.host == n.host && m.priority == n.priority && m.arbiterOnly == n.arbiterOnly
    && m.votes == n.votes && SameHorizons(m.horizons, n.horizons)
  }

  predicate SameMembers(ms: seq<Member>, ns: seq<Member>) {
    |ms| == |ns| && forall i :: 0 <= i < |ms| ==> SameMember(ms[i], ns[i])
  }

  predicate SameSet(r: ReplicaSet, s: ReplicaSet) {
    r.id == s.id && r.protocolVersion == s.protocolVersion && SameMembers(r.members, s.members)
  }

  predicate SameSets(rs: seq<ReplicaSet>, ss: seq<ReplicaSet>) {
    |rs| == |ss| && forall i :: 0 <= i < |rs| ==> SameSet(rs[i], ss[i])
  }

  /** Everything but the version number agrees. */
  predicate SameConfig(a: Config, b: Config) {
    && a.processes == b.processes && SameSets(a.replicaSets, b.replicaSets) && SameAuth(a.auth, b.auth)
    && a.tls == b.tls && a.versions == b.versions && a.options == b.options && SameList(a.roles, b.roles)
  }

  lemma MembersIff(ms: seq<Member>, ns: seq<Member>)
    ensures CanonMembers(ms) == CanonMembers(ns) <==> SameMembers(ms, ns)
  {
    var cs, ds := CanonMembers(ms), CanonMembers(ns);
    assert |cs| == |ms| && |ds| == |ns|;
    if cs == ds {
      forall i | 0 <= i < |ms| ensures SameMember(ms[i], ns[i]) { assert cs[i] == ds[i]; }
    }
  }

  lemma SetsIff(rs: seq<ReplicaSet>, ss: seq<ReplicaSet>)
    ensures CanonSets(rs) == CanonSets(ss) <==> SameSets(rs, ss)
  {
    var cs, ds := CanonSets(rs), CanonSets(ss);
    assert |cs| == |rs| && |ds| == |ss|;
    hide CanonMembers, SameMembers;
    if cs == ds {
      forall i | 0 <= i < |rs| ensures SameSet(rs[i], ss[i]) {
        assert cs[i] == ds[i];
        MembersIff(rs[i].members, ss[i].members);
      }
    }
    if SameSets(rs, ss) {
      forall i | 0 <= i < |rs| ensures cs[i] == ds[i] {
        assert SameSet(rs[i], ss[i]);
        MembersIff(rs[i].members, ss[i].members);
      }
    }
  }

  /** AreEqual compares everything but the version number, and takes nil for empty where the encoding does. */
  lemma AreEqualIffSame(a: Config, b: Config)
    ensures AreEqual(a, b) <==> SameConfig(a, b)
  {
    SetsIff(a.replicaSets, b.replicaSets);
    hide CanonSets, SameSets;
  }

  /**
   Ensuring the secret: it then holds the desired config, which is also what is returned; it is written exactly when it
   did not hold the same before, and then with the desired version number.
   */
  lemma EnsureStoresDesired(s: Stored, desired: Config)
    ensures var e := EnsureSecret(s, desired);
            && e.1.Holding? && SameConfig(e.1.config, desired) && SameConfig(e.0, desired)
            && e.0.version == e.1.config.version
            && (s.Holding? && SameConfig(s.config, desired) ==> e.1 == s)
            && (!(s.Holding? && SameConfig(s.config, desired)) ==> e.1.config.version == desired.version)
  {
    var e := EnsureSecret(s, desired);
    AreEqualIffSame(desired, e.1.config);
    AreEqualIffSame(e.1.config, desired);
    AreEqualIffSame(e.0, desired);
    if s.Holding? {
      AreEqualIffSame(s.config, desired);
      AreEqualIffSame(desired, s.config);
    }
    AreEqualIffContent(desired, Canon(desired));
    AreEqualIffContent(Canon(desired), desired);
    AreEqualIffContent(desired, desired);
    if s.Holding? {
      AreEqualIffContent(s.config, desired);
      AreEqualIffContent(desired, s.config);
    }
    hide SameConfig, Content;
  }
}
