/** The automation config, equality of its contents, and what Build makes of its inputs. */
module AutomationConfig {
  import opened Wrappers
  import opened SemVer
  import opened ScramCredentials

  const MAX_VOTING_MEMBERS := 7

  datatype Role = Role(role: string, database: string)
  datatype MongoDBUser = MongoDBUser(username: string, database: string, roles: seq<Role>, creds: Pair)

  /** Lists marked omitempty are None when nil. */
  datatype Auth = Auth(users: Option<seq<MongoDBUser>>, disabled: bool, authoritativeSet: bool,
                       autoAuthMechanisms: Option<seq<string>>, autoAuthMechanism: string,
                       deploymentAuthMechanisms: Option<seq<string>>, autoUser: string, key: string,
                       keyFile: string, keyFileWindows: string, autoPwd: string)

  type Args = map<string, string>
  type Horizons = map<string, string>

  datatype Process = Process(name: string, hostName: string, args: Args, fcv: string, version: string,
                             authSchemaVersion: int)
  datatype Member = Member(id: nat, host: string, priority: int, arbiterOnly: bool, votes: int,
                           horizons: Option<Horizons>)
  datatype ReplicaSet = ReplicaSet(id: string, members: seq<Member>, protocolVersion: string)
  datatype Tls = Tls(caFilePath: string, clientCertificateMode: string)
  datatype VersionConfig = VersionConfig(name: string, enterprise: bool)

  datatype Config = Config(version: int, processes: seq<Process>, replicaSets: seq<ReplicaSet>, auth: Auth,
                           tls: Option<Tls>, versions: seq<VersionConfig>, options: string, roles: Option<seq<string>>)

  const NO_AUTH := Auth(None, false, false, None, "", None, "", "", "", "", "")

  /** Go's zero value: what ReadFromSecret yields when there is no secret. */
  const NO_CONFIG := Config(0, [], [], NO_AUTH, None, [], "", None)

  // ---- Contents ----

  /** omitempty writes an empty list or map as if it were nil. */
  function OmitEmpty<T>(xs: Option<seq<T>>): (r: Option<seq<T>>) { if xs == Some([]) then None else xs }

  function OmitEmptyMap(m: Option<Horizons>): (r: Option<Horizons>) { if m == Some(map[]) then None else m }

  function CanonMembers(ms: seq<Member>): (r: seq<Member>) {
    seq(|ms|, i requires 0 <= i < |ms| => ms[i].(horizons := OmitEmptyMap(ms[i].horizons)))
  }

  function CanonSets(rs: seq<ReplicaSet>): (r: seq<ReplicaSet>) {
    seq(|rs|, i requires 0 <= i < |rs| => rs[i].(members := CanonMembers(rs[i].members)))
  }

  /** The config as it comes back from JSON. Encoding is faithful apart from omitempty. */
  function Canon(c: Config): (r: Config) {
    c.(auth := c.auth.(users := OmitEmpty(c.auth.users), autoAuthMechanisms := OmitEmpty(c.auth.autoAuthMechanisms),
                       deploymentAuthMechanisms := OmitEmpty(c.auth.deploymentAuthMechanisms)),
       replicaSets := CanonSets(c.replicaSets), roles := OmitEmpty(c.roles))
  }

  /** AreEqual compares the encodings after copying one version to the other. */
  predicate AreEqual(a: Config, b: Config) { Canon(a.(version := b.version)) == Canon(b) }

  /** The contents without the version. */
  function Content(c: Config): (r: Config) { Canon(c).(version := 0) }

  lemma CanonTwice(c: Config)
    ensures Canon(Canon(c)) == Canon(c)
  {
    var once := Canon(c);
    forall i | 0 <= i < |c.replicaSets| ensures CanonSets(once.replicaSets)[i] == once.replicaSets[i] {
      var ms := c.replicaSets[i].members;
      assert CanonMembers(CanonMembers(ms)) == CanonMembers(ms);
    }
    assert CanonSets(once.replicaSets) == once.replicaSets;
  }

  /** AreEqual is exactly equality of contents, so an equivalence blind to the version and to nil against empty. */
  lemma AreEqualIffContent(a: Config, b: Config)
    ensures AreEqual(a, b) <==> Content(a) == Content(b)
    ensures Content(Canon(a)) == Content(a)
    ensures forall v :: Content(a.(version := v)) == Content(a)
  {
    CanonTwice(a);
    assert Canon(a.(version := b.version)) == Canon(a).(version := b.version);
    assert Canon(b).(version := 0).(version := b.version) == Canon(b);
    if Content(a) == Content(b) {
      assert Canon(a).(version := b.version) == Content(a).(version := b.version);
    }
  }

  // ---- Members: votes and arbiters ----

  /** newReplicaSetMember. The comparison with MAX_VOTING_MEMBERS is strict, so an eighth member still votes. */
  function NewMember(host: string, id: nat, horizons: Option<Horizons>, totalVotesSoFar: int, numberArbiters: int)
    : (m: Member)
  {
    var silent := totalVotesSoFar > MAX_VOTING_MEMBERS;
    Member(id, host, if silent then 0 else 1, totalVotesSoFar < numberArbiters, if silent then 0 else 1, horizons)
  }

  function TotalVotes(ms: seq<Member>): (r: int) {
    if ms == [] then 0 else TotalVotes(ms[..|ms| - 1]) + ms[|ms| - 1].votes
  }

  /** Each member is made from the votes of those before it. */
  ghost predicate VotedInOrder(ms: seq<Member>, arbiters: int) {
    forall i :: 0 <= i < |ms| ==>
      ms[i] == NewMember(ms[i].host, i, ms[i].horizons, TotalVotes(ms[..i]), arbiters)
  }

  function Min(a: int, b: int): (r: int) { if a < b then a else b }

  lemma {:induction false} VotesSoFar(ms: seq<Member>, arbiters: int, n: nat)
    requires VotedInOrder(ms, arbiters) && n <= |ms|
    ensures TotalVotes(ms[..n]) == Min(n, MAX_VOTING_MEMBERS + 1)
  {
    if n > 0 {
      VotesSoFar(ms, arbiters, n - 1);
      assert ms[..n][..n - 1] == ms[..n - 1];
    }
  }

  /** As written the first eight members vote, and exactly they have priority. */
  lemma EightVote(ms: seq<Member>, arbiters: int)
    requires VotedInOrder(ms, arbiters)
    ensures TotalVotes(ms) == Min(|ms|, 8)
    ensures forall i :: 0 <= i < |ms| ==> ms[i].votes == (if i < 8 then 1 else 0) && ms[i].priority == ms[i].votes
  {
    VotesSoFar(ms, arbiters, |ms|);
    assert ms[..|ms|] == ms;
    forall i | 0 <= i < |ms| ensures ms[i].votes == (if i < 8 then 1 else 0) && ms[i].priority == ms[i].votes {
      VotesSoFar(ms, arbiters, i);
    }
  }

  /** Up to eight arbiters are the first members; more than eight make every member an arbiter. */
  lemma ArbitersArePrefix(ms: seq<Member>, arbiters: int)
    requires VotedInOrder(ms, arbiters)
    ensures forall i :: 0 <= i < |ms| ==> (ms[i].arbiterOnly <==> if arbiters <= 8 then i < arbiters else true)
  {
    forall i | 0 <= i < |ms| ensures ms[i].arbiterOnly <==> if arbiters <= 8 then i < arbiters else true {
      VotesSoFar(ms, arbiters, i);
    }
  }

  /** Some member holds data exactly when there are at most eight arbiters and fewer arbiters than members. */
  lemma DataBearingIff(ms: seq<Member>, arbiters: int)
    requires VotedInOrder(ms, arbiters)
    ensures (exists i :: 0 <= i < |ms| && !ms[i].arbiterOnly) <==> |ms| > 0 && arbiters <= 8 && arbiters < |ms|
  {
    ArbitersArePrefix(ms, arbiters);
    if |ms| > 0 && arbiters <= 8 && arbiters < |ms| { assert !ms[|ms| - 1].arbiterOnly; }
  }

  // ---- Build ----

  type Modification = Config -> Config

  datatype Inputs = Inputs(name: string, domain: string, members: nat, arbiters: int, mongodbVersion: string,
                           fcv: string, horizons: Option<seq<Horizons>>, auth: Auth, options: string,
                           modifications: seq<Modification>)

  datatype Outcome = Built(config: Config) | Failed(error: string) | Panicked

  function Digit(d: nat): (c: char)
    requires d < 10
  { "0123456789"[d] }

  /** Sprintf("%d"). */
  function Decimal(n: nat): (s: string)
    ensures s != ""
  { if n < 10 then [Digit(n)] else Decimal(n / 10) + [Digit(n % 10)] }

  lemma {:induction false} DecimalInjective(m: nat, n: nat)
    requires Decimal(m) == Decimal(n)
    ensures m == n
  {
    var a, b := Decimal(m), Decimal(n);
    if m < 10 && n < 10 {
      assert a[0] == Digit(m) && b[0] == Digit(n);
    } else {
      assert a[|a| - 1] == Digit(m % 10) && b[|b| - 1] == Digit(n % 10);
      assert a[..|a| - 1] == Decimal(m / 10) && b[..|b| - 1] == Decimal(n / 10);
      DecimalInjective(m / 10, n / 10);
    }
  }

  function ProcessName(name: string, i: nat): (s: string) { name + "-" + Decimal(i) }

  /** No two processes, and so no two hosts, of a deployment share a name. */
  lemma ProcessNamesDistinct(name: string, i: nat, j: nat)
    requires ProcessName(name, i) == ProcessName(name, j)
    ensures i == j
  {
    var prefix := name + "-";
    assert ProcessName(name, i)[|prefix|..] == Decimal(i) && ProcessName(name, j)[|prefix|..] == Decimal(j);
    DecimalInjective(i, j);
  }

  /** The feature compatibility version the builder settles on before looking at the server version. */
  function CarriedFcv(lib: Library, previous: Config, fcv: string, mongodbVersion: string): (r: Result<string>) {
    if |previous.processes| == 0 || fcv != "" then Ok(fcv)
    else
      var before := lib.make(previous.processes[0].fcv + ".0");
      var current := lib.make(mongodbVersion);
      if before.None? then Err("previous FeatureCompatibilityVersion")
      else if current.None? then Err("current MongoDB version")
      else if Less(before.value, current.value) then Ok(previous.processes[0].fcv)
      else Ok("")
  }

  function ProcessFcv(lib: Library, carried: string, mongodbVersion: string): (r: string) {
    if carried != "" then carried else CalculateFcv(lib, mongodbVersion)
  }

  function NewProcess(name: string, domain: string, i: nat, fcv: string, mongodbVersion: string): (p: Process) {
    Process(ProcessName(name, i), ProcessName(name, i) + "." + domain,
            map["net.port" := "27017", "storage.dbPath" := "/data", "replication.replSetName" := name],
            fcv, mongodbVersion, 5)
  }

  function Processes(name: string, domain: string, n: nat, fcv: string, mongodbVersion: string): (ps: seq<Process>) {
    seq(n, i requires 0 <= i < n => NewProcess(name, domain, i, fcv, mongodbVersion))
  }

  /** The members, by the closed form of the votes counted so far. */
  function Members(name: string, n: nat, arbiters: int, horizons: Option<seq<Horizons>>): (ms: seq<Member>)
    requires horizons.Some? ==> n <= |horizons.value|
  {
    seq(n, i requires 0 <= i < n =>
      NewMember(ProcessName(name, i), i, if horizons.Some? then Some(horizons.value[i]) else None,
                Min(i, MAX_VOTING_MEMBERS + 1), arbiters))
  }

  lemma {:induction false} MemberVotes(name: string, n: nat, arbiters: int, horizons: Option<seq<Horizons>>, k: nat)
    requires (horizons.Some? ==> n <= |horizons.value|) && k <= n
    ensures TotalVotes(Members(name, n, arbiters, horizons)[..k]) == Min(k, MAX_VOTING_MEMBERS + 1)
  {
    if k > 0 {
      var ms := Members(name, n, arbiters, horizons);
      MemberVotes(name, n, arbiters, horizons, k - 1);
      assert ms[..k][..k - 1] == ms[..k - 1];
    }
  }

  lemma MembersVotedInOrder(name: string, n: nat, arbiters: int, horizons: Option<seq<Horizons>>)
    requires horizons.Some? ==> n <= |horizons.value|
    ensures VotedInOrder(Members(name, n, arbiters, horizons), arbiters)
  {
    var ms := Members(name, n, arbiters, horizons);
    forall i | 0 <= i < |ms| ensures ms[i] == NewMember(ms[i].host, i, ms[i].horizons, TotalVotes(ms[..i]), arbiters) {
      MemberVotes(name, n, arbiters, horizons, i);
    }
  }

  function ApplyAll(mods: seq<Modification>, c: Config): (r: Config) {
    if mods == [] then c else mods[|mods| - 1](ApplyAll(mods[..|mods| - 1], c))
  }

  predicate IsEnterprise(version: string) { |version| >= 4 && version[|version| - 4..] == "-ent" }

  /** The config before the modifications, with the previous version number. */
  function Draft(lib: Library, previous: Config, x: Inputs, carried: string): (c: Config)
    requires x.horizons.Some? ==> x.members <= |x.horizons.value|
  {
    Config(previous.version,
           Processes(x.name, x.domain, x.members, ProcessFcv(lib, carried, x.mongodbVersion), x.mongodbVersion),
           [ReplicaSet(x.name, Members(x.name, x.members, x.arbiters, x.horizons), "1")],
           x.auth, Some(Tls("", "OPTIONAL")),
           [VersionConfig(x.mongodbVersion, IsEnterprise(x.mongodbVersion))], x.options, None)
  }

  /** Build: the previous version number, raised by one when the contents differ. */
  function Build(lib: Library, previous: Config, x: Inputs): (r: Outcome) {
    var carried := CarriedFcv(lib, previous, x.fcv, x.mongodbVersion);
    if carried.Err? then Failed(carried.error)
    else if x.horizons.Some? && |x.horizons.value| < x.members then Panicked
    else
      var c := ApplyAll(x.modifications, Draft(lib, previous, x, carried.value));
      Built(if AreEqual(previous, c) then c else c.(version := c.version + 1))
  }
}
