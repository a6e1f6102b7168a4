/** The Builder object of pkg/automationconfig and the config secret. */
module Builder {
  import opened Wrappers
  import SemVer
  import opened AutomationConfig

  class ConfigBuilder {
    const lib: SemVer.Library
    var name: string
    var domain: string
    var members: nat
    var arbiters: int
    var mongodbVersion: string
    var fcv: string
    var horizons: Option<seq<Horizons>>
    var auth: Auth
    var options: string
    var modifications: seq<Modification>
    var previous: Config

    constructor (lib: SemVer.Library, x: Inputs, previous: Config)
      ensures this.lib == lib && this.previous == previous && Given() == x
    {
      this.lib := lib;
      name, domain, members, arbiters := x.name, x.domain, x.members, x.arbiters;
      mongodbVersion, fcv, horizons := x.mongodbVersion, x.fcv, x.horizons;
      auth, options, modifications := x.auth, x.options, x.modifications;
      this.previous := previous;
    }

    function Given(): (x: Inputs)
      reads this
    {
      Inputs(name, domain, members, arbiters, mongodbVersion, fcv, horizons, auth, options, modifications)
    }

    /** Keeps the previous feature compatibility version when the server version is above it. */
    method SetFcvIfUpgradeIsHappening() returns (error: Option<string>)
      modifies this`fcv
      ensures var carried := CarriedFcv(lib, previous, old(fcv), mongodbVersion);
              if carried.Ok? then error.None? && fcv == carried.value
              else error == Some(carried.error) && fcv == old(fcv)
    {
      if |previous.processes| > 0 && fcv == "" {
        var previousFcv := previous.processes[0].fcv;
        var before := lib.make(previousFcv + ".0");
        if before.None? { return Some("previous FeatureCompatibilityVersion"); }
        var current := lib.make(mongodbVersion);
        if current.None? { return Some("current MongoDB version"); }
        if SemVer.Less(before.value, current.value) { fcv := previousFcv; }
      }
      error := None;
    }

    /** The loop over host names: one process and one member each, counting votes as it goes. */
    method BuildMembers() returns (panicked: bool, processes: seq<Process>, replicas: seq<Member>)
      ensures panicked <==> horizons.Some? && |horizons.value| < members
      ensures !panicked ==>
                && processes == Processes(name, domain, members, ProcessFcv(lib, fcv, mongodbVersion), mongodbVersion)
                && replicas == Members(name, members, arbiters, horizons)
    {
      processes, replicas := [], [];
      var totalVotes := 0;
      for i := 0 to members
        invariant |processes| == |replicas| == i
        invariant totalVotes == Min(i, MAX_VOTING_MEMBERS + 1)
        invariant horizons.Some? ==> i <= |horizons.value|
        invariant forall j :: 0 <= j < i ==>
          && processes[j] == NewProcess(name, domain, j, ProcessFcv(lib, fcv, mongodbVersion), mongodbVersion)
          && replicas[j] == NewMember(ProcessName(name, j), j, if horizons.Some? then Some(horizons.value[j]) else None,
                                      Min(j, MAX_VOTING_MEMBERS + 1), arbiters)
      {
        var version := SemVer.CalculateFcv(lib, mongodbVersion);
        if fcv != "" { version := fcv; }
        var process := NewProcess(name, domain, i, version, mongodbVersion);
        processes := processes + [process];
        var own: Option<Horizons> := None;
        if horizons.Some? {
          if i >= |horizons.value| { return true, processes, replicas; }
          own := Some(horizons.value[i]);
        }
        var member := NewMember(process.name, i, own, totalVotes, arbiters);
        replicas := replicas + [member];
        totalVotes := totalVotes + member.votes;
      }
      panicked := false;
    }

    method Build() returns (r: Outcome)
      modifies this`fcv
      ensures r == AutomationConfig.Build(lib, previous, old(Given()))
    {
      var error := SetFcvIfUpgradeIsHappening();
      if error.Some? { return Failed(error.value); }
      var panicked, processes, replicas := BuildMembers();
      if panicked { return Panicked; }
      var current := Config(previous.version, processes, [ReplicaSet(name, replicas, "1")], auth,
                            Some(Tls("", "OPTIONAL")),
                            [VersionConfig(mongodbVersion, IsEnterprise(mongodbVersion))], options, None);
      ghost var draft := current;
      for i := 0 to |modifications|
        invariant current == ApplyAll(modifications[..i], draft)
      {
        assert modifications[..i + 1][..i] == modifications[..i];
        current := modifications[i](current);
      }
      assert modifications[..|modifications|] == modifications;
      if !AreEqual(previous, current) { current := current.(version := current.version + 1); }
      r := Built(current);
    }
  }

  // ---- The secret ----

  /** No secret, a secret without the config key, or a stored config as it reads back. */
  datatype Stored = Missing | Keyless | Holding(config: Config)

  function Read(s: Stored): (r: Option<Config>) {
    match s
    case Missing => Some(NO_CONFIG)
    case Keyless => None
    case Holding(c) => Some(c)
  }

  /** EnsureSecret: what it returns and what the secret holds afterwards. */
  function EnsureSecret(s: Stored, desired: Config): (r: (Config, Stored))
    ensures r.1.Holding? && AreEqual(r.0, r.1.config)
    ensures s.Holding? && AreEqual(desired, s.config) ==> r.1 == s
  {
    AreEqualIffContent(desired, Canon(desired));
    AreEqualIffContent(desired, desired);
    CanonTwice(desired);
    if s.Holding? && AreEqual(desired, s.config) then
      assert AreEqual(s.config, s.config);
      (s.config, s)
    else (desired, Holding(Canon(desired)))
  }

  class ConfigSecret {
    var stored: Stored

    constructor ()
      ensures stored == Missing
    { stored := Missing; }

    method ReadFromSecret() returns (r: Option<Config>)
      ensures r == Read(stored)
    {
      match stored {
        case Missing => r := Some(NO_CONFIG);
        case Keyless => r := None;
        case Holding(c) => r := Some(c);
      }
    }

    method Ensure(desired: Config) returns (r: Config)
      modifies this
      ensures (r, stored) == EnsureSecret(old(stored), desired)
    {
      if stored.Holding? && AreEqual(desired, stored.config) { return stored.config; }
      stored := Holding(Canon(desired));
      r := desired;
    }
  }
}
