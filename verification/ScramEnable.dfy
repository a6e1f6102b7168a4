/** Enabling SCRAM for a resource: every user's credentials, the agent password and the keyfile. */
module ScramEnable {
  import opened Wrappers
  import opened ScramCredentials
  import opened Secrets
  import opened Scram
  import AC = AutomationConfig
  import PodMerge

  const AGENT_PASSWORD_KEY := "password"
  const AGENT_KEYFILE_KEY := "keyfile"
  const WINDOWS_KEYFILE := "%SystemDrive%\\MMSAutomation\\versions\\keyfile"

  datatype Options = Options(authoritativeSet: bool, keyFile: string, autoAuthMechanisms: seq<string>,
                             agentName: string, autoAuthMechanism: string)

  datatype Setup = Setup(users: seq<User>, agentPasswordName: string, keyfileName: string, options: Options)

  /** Everything drawn at random by one call. */
  datatype Random = Random(password: string, keyfile: string, salts: nat -> Salts)

  function AcUser(u: User, p: Pair): (r: AC.MongoDBUser) {
    AC.MongoDBUser(u.username, u.database,
                   seq(|u.roles|, i requires 0 <= i < |u.roles| => AC.Role(u.roles[i].0, u.roles[i].1)), p)
  }

  /** The users in order, each call seeing the secrets the previous one left. */
  ghost function Users(c: Crypto, s: Contents, users: seq<User>, salts: nat -> Salts)
    : (r: (Option<seq<AC.MongoDBUser>>, Contents))
    requires Lawful(c)
  {
    if users == [] then (Some([]), s)
    else
      var before := Users(c, s, users[..|users| - 1], salts);
      if before.0.None? then before
      else
        var u := users[|users| - 1];
        var e := Ensure(c, before.1, u, salts(|users| - 1));
        (if e.0.None? then None else Some(before.0.value + [AcUser(u, e.0.value)]), e.1)
  }

  predicate ValidOptions(o: Options) {
    o.autoAuthMechanisms != [] && o.autoAuthMechanism != "" && o.agentName != "" && o.keyFile != ""
  }

  function Configured(users: seq<AC.MongoDBUser>, o: Options, password: string, keyfile: string): (a: AC.Auth) {
    var mechanisms := PodMerge.StringSlices([], o.autoAuthMechanisms);
    AC.Auth(if users == [] then None else Some(users), false, o.authoritativeSet, Some(mechanisms), o.autoAuthMechanism,
            Some(mechanisms), o.agentName, keyfile, o.keyFile, WINDOWS_KEYFILE, password)
  }

  ghost function Enable(c: Crypto, s: Contents, x: Setup, r: Random): (e: (Option<AC.Auth>, Contents))
    requires Lawful(c)
  {
    var users := Users(c, s, x.users, r.salts);
    if users.0.None? then (None, users.1)
    else
      var password := EnsureKey(users.1, x.agentPasswordName, AGENT_PASSWORD_KEY, r.password);
      var keyfile := EnsureKey(password.1, x.keyfileName, AGENT_KEYFILE_KEY, r.keyfile);
      var auth := Configured(users.0.value, x.options, password.0, keyfile.0);
      (if ValidOptions(x.options) then Some(auth) else None, keyfile.1)
  }

  method ConvertUsers(c: Crypto, store: SecretStore, users: seq<User>, salts: nat -> Salts)
    returns (r: Option<seq<AC.MongoDBUser>>)
    requires Lawful(c)
    modifies store
    ensures (r, store.contents) == Users(c, old(store.contents), users, salts)
  {
    var wanted: seq<AC.MongoDBUser> := [];
    for i := 0 to |users|
      invariant (Some(wanted), store.contents) == Users(c, old(store.contents), users[..i], salts)
    {
      assert users[..i + 1][..i] == users[..i];
      var p := EnsureScramCredentials(c, store, users[i], salts(i));
      if p.None? {
        StopsEarly(c, old(store.contents), users, salts, i + 1);
        return None;
      }
      wanted := wanted + [AcUser(users[i], p.value)];
    }
    assert users[..|users|] == users;
    r := Some(wanted);
  }

  /** After a failure no later user is looked at. */
  lemma {:induction false} StopsEarly(c: Crypto, s: Contents, users: seq<User>, salts: nat -> Salts, n: nat)
    requires Lawful(c) && n <= |users| && Users(c, s, users[..n], salts).0.None?
    ensures Users(c, s, users, salts) == Users(c, s, users[..n], salts)
    decreases |users|
  {
    if n == |users| {
      assert users[..n] == users;
    } else {
      var init := users[..|users| - 1];
      assert init[..n] == users[..n];
      StopsEarly(c, s, init, salts, n);
    }
  }

  /** The loops that add each mechanism once. */
  method DistinctMechanisms(mechanisms: seq<string>) returns (r: seq<string>)
    ensures r == PodMerge.StringSlices([], mechanisms)
  {
    r := [];
    for i := 0 to |mechanisms|
      invariant r == PodMerge.StringSlices([], mechanisms[..i])
    {
      assert mechanisms[..i + 1][..i] == mechanisms[..i];
      if mechanisms[i] !in r { r := r + [mechanisms[i]]; }
    }
    assert mechanisms[..|mechanisms|] == mechanisms;
  }

  method EnableScram(c: Crypto, store: SecretStore, x: Setup, r: Random) returns (auth: Option<AC.Auth>)
    requires Lawful(c)
    modifies store
    ensures (auth, store.contents) == Enable(c, old(store.contents), x, r)
  {
    var users := ConvertUsers(c, store, x.users, r.salts);
    if users.None? { return None; }
    var password := store.EnsureSecretWithKey(x.agentPasswordName, AGENT_PASSWORD_KEY, r.password);
    var keyfile := store.EnsureSecretWithKey(x.keyfileName, AGENT_KEYFILE_KEY, r.keyfile);
    if !ValidOptions(x.options) { return None; }
    var auto := DistinctMechanisms(x.options.autoAuthMechanisms);
    var deployment := DistinctMechanisms(x.options.autoAuthMechanisms);
    var listed := if users.value == [] then None else Some(users.value);
    auth := Some(AC.Auth(listed, false, x.options.authoritativeSet, Some(auto), x.options.autoAuthMechanism,
                         Some(deployment), x.options.agentName, keyfile, x.options.keyFile, WINDOWS_KEYFILE, password));
  }

  // ---- Stability ----

  /** Credential secrets are pairwise distinct, no password is read from a secret that is written. */
  ghost predicate NamesDistinct(x: Setup) {
    && (forall i, j :: 0 <= i < j < |x.users| ==> x.users[i].credentialsName != x.users[j].credentialsName)
    && (forall i, j :: 0 <= i < |x.users| && 0 <= j < |x.users| ==>
        x.users[i].passwordName != x.users[j].credentialsName)
    && (forall i :: 0 <= i < |x.users| ==>
          && x.users[i].passwordName !in {x.agentPasswordName, x.keyfileName}
          && x.users[i].credentialsName !in {x.agentPasswordName, x.keyfileName})
  }

  ghost predicate SameFor(s: Contents, t: Contents, u: User) {
    Get(s, u.passwordName) == Get(t, u.passwordName) && Get(s, u.credentialsName) == Get(t, u.credentialsName)
  }

  /** After a success the same call succeeds again with the same credentials and writes nothing, whatever is drawn. */
  lemma EnsureAgain(c: Crypto, s: Contents, t: Contents, u: User, draw: Salts, redraw: Salts)
    requires Lawful(c) && u.passwordName != u.credentialsName && Ensure(c, s, u, draw).0.Some?
    requires SameFor(Ensure(c, s, u, draw).1, t, u)
    ensures Ensure(c, t, u, redraw) == (Ensure(c, s, u, draw).0, t)
  {
    var read := ReadKey(s, u.passwordName, u.passwordKey);
    var after := Ensure(c, s, u, draw).1;
    assert Get(after, u.passwordName) == Get(s, u.passwordName);
    assert Get(after, u.passwordName).Some? <==> u.passwordName in after;
    assert Get(t, u.passwordName).Some? <==> u.passwordName in t;
    assert Get(t, u.credentialsName).Some? <==> u.credentialsName in t;
    assert ReadKey(t, u.passwordName, u.passwordKey) == read;
    assert ReadExisting(t, u.credentialsName) == ReadExisting(after, u.credentialsName);
    if read.Found? { EnsureVerifies(c, s, u, draw, read.value); }
  }

  lemma EnsureFrame(c: Crypto, s: Contents, u: User, draw: Salts, name: string)
    requires Lawful(c) && name != u.credentialsName
    ensures Get(Ensure(c, s, u, draw).1, name) == Get(s, name)
  {}

  /** Names that no later user writes are as they were. */
  lemma {:induction false} LaterUsersFrame(c: Crypto, s: Contents, users: seq<User>, salts: nat -> Salts, n: nat,
                                           name: string)
    requires Lawful(c) && n <= |users|
    requires forall j :: n <= j < |users| ==> users[j].credentialsName != name
    ensures Get(Users(c, s, users, salts).1, name) == Get(Users(c, s, users[..n], salts).1, name)
    decreases |users|
  {
    if n == |users| {
      assert users[..n] == users;
    } else {
      var init := users[..|users| - 1];
      assert init[..n] == users[..n];
      LaterUsersFrame(c, s, init, salts, n, name);
      var before := Users(c, s, init, salts);
      EnsureFrame(c, before.1, users[|users| - 1], salts(|users| - 1), name);
      hide Ensure;
    }
  }

  lemma {:induction false} UsersAgain(c: Crypto, s: Contents, t: Contents, users: seq<User>, salts: nat -> Salts,
                                      redraw: nat -> Salts, n: nat)
    requires Lawful(c) && n <= |users| && Users(c, s, users, salts).0.Some?
    requires forall i :: 0 <= i < |users| ==> users[i].passwordName != users[i].credentialsName
    requires forall i :: 0 <= i < |users| ==> SameFor(Users(c, s, users[..i + 1], salts).1, t, users[i])
    ensures Users(c, s, users[..n], salts).0.Some?
    ensures Users(c, t, users[..n], redraw) == (Users(c, s, users[..n], salts).0, t)
  {
    if Users(c, s, users[..n], salts).0.None? { StopsEarly(c, s, users, salts, n); }
    if n > 0 {
      UsersAgain(c, s, t, users, salts, redraw, n - 1);
      assert users[..n][..n - 1] == users[..n - 1];
      var before := Users(c, s, users[..n - 1], salts).1;
      assert SameFor(Users(c, s, users[..n - 1 + 1], salts).1, t, users[n - 1]);
      EnsureAgain(c, before, t, users[n - 1], salts(n - 1), redraw(n - 1));
    }
  }

  /** The final secrets hold what each user's own turn left for that user. */
  lemma FinalAgrees(c: Crypto, s: Contents, x: Setup, r: Random, i: nat)
    requires Lawful(c) && NamesDistinct(x) && Enable(c, s, x, r).0.Some? && i < |x.users|
    ensures SameFor(Users(c, s, x.users[..i + 1], r.salts).1, Enable(c, s, x, r).1, x.users[i])
    ensures x.users[i].passwordName != x.users[i].credentialsName
  {
    hide Users, Configured;
    LaterUsersFrame(c, s, x.users, r.salts, i + 1, x.users[i].passwordName);
    LaterUsersFrame(c, s, x.users, r.salts, i + 1, x.users[i].credentialsName);
  }

  /**
   With distinct names, a second pass over unchanged inputs writes no credential, password or keyfile secret
   and configures the same authentication, whatever random values either pass drew.
   */
  lemma EnableStable(c: Crypto, s: Contents, x: Setup, r: Random, redraw: Random)
    requires Lawful(c) && NamesDistinct(x) && Enable(c, s, x, r).0.Some?
    ensures Enable(c, Enable(c, s, x, r).1, x, redraw) == Enable(c, s, x, r)
  {
    hide Users, Configured;
    var t := Enable(c, s, x, r).1;
    forall i | 0 <= i < |x.users|
      ensures SameFor(Users(c, s, x.users[..i + 1], r.salts).1, t, x.users[i])
              && x.users[i].passwordName != x.users[i].credentialsName
    {
      FinalAgrees(c, s, x, r, i);
    }
    UsersAgain(c, s, t, x.users, r.salts, redraw.salts, |x.users|);
    assert x.users[..|x.users|] == x.users;
  }

  // ---- What is configured ----

  /** Each of the mechanisms once, and no other. */
  ghost predicate SameMechanisms(listed: Option<seq<string>>, mechanisms: seq<string>) {
    && listed.Some? && (forall m :: m in listed.value <==> m in mechanisms)
    && forall i, j :: 0 <= i < j < |listed.value| ==> listed.value[i] != listed.value[j]
  }

  /** The agent's own settings: who it is, what it authenticates with, and where the keyfile goes. */
  ghost predicate AgentSettings(a: AC.Auth, o: Options) {
    && !a.disabled && a.authoritativeSet == o.authoritativeSet && a.autoUser == o.agentName && a.keyFile == o.keyFile
    && a.autoAuthMechanism == o.autoAuthMechanism
    && a.keyFileWindows == "%SystemDrive%\\MMSAutomation\\versions\\keyfile"
    && SameMechanisms(a.autoAuthMechanisms, o.autoAuthMechanisms)
    && SameMechanisms(a.deploymentAuthMechanisms, o.autoAuthMechanisms)
  }

  /** The agent's password and keyfile are those of their secrets. */
  predicate AgentSecrets(a: AC.Auth, t: Contents, x: Setup) {
    && x.agentPasswordName in t && x.keyfileName in t
    && a.autoPwd == Field(t[x.agentPasswordName], "password") && a.key == Field(t[x.keyfileName], "keyfile")
  }

  /** The same name, database and roles, and the given credentials. */
  predicate SameUser(r: AC.MongoDBUser, u: User, p: Pair) {
    && r.username == u.username && r.database == u.database && r.creds == p
    && |r.roles| == |u.roles|
    && forall i :: 0 <= i < |u.roles| ==> r.roles[i].role == u.roles[i].0 && r.roles[i].database == u.roles[i].1
  }

  /** Enabling succeeds exactly when every user's credentials can be ensured and no option is missing. */
  lemma EnablesIff(c: Crypto, s: Contents, x: Setup, r: Random)
    requires Lawful(c)
    ensures Enable(c, s, x, r).0.Some? <==>
            && Users(c, s, x.users, r.salts).0.Some? && |x.options.autoAuthMechanisms| > 0
            && x.options.autoAuthMechanism != "" && x.options.agentName != "" && x.options.keyFile != ""
  {}

  /** On success the agent is configured from the options and from the secrets as they are afterwards. */
  lemma EnablesAgent(c: Crypto, s: Contents, x: Setup, r: Random)
    requires Lawful(c) && Enable(c, s, x, r).0.Some?
    ensures var e := Enable(c, s, x, r); AgentSettings(e.0.value, x.options) && AgentSecrets(e.0.value, e.1, x)
    ensures var users := Users(c, s, x.users, r.salts).0;
            users.Some? && Enable(c, s, x, r).0.value.users == if users.value == [] then None else users
  {
    hide Users, ValidOptions;
    var users := Users(c, s, x.users, r.salts);
    var password := EnsureKey(users.1, x.agentPasswordName, AGENT_PASSWORD_KEY, r.password);
    var keyfile := EnsureKey(password.1, x.keyfileName, AGENT_KEYFILE_KEY, r.keyfile);
    assert Get(keyfile.1, x.agentPasswordName) == Get(password.1, x.agentPasswordName);
  }

  lemma AcUserMeans(u: User, p: Pair)
    ensures SameUser(AcUser(u, p), u, p)
  {}

  lemma {:induction false} UsersSize(c: Crypto, s: Contents, users: seq<User>, salts: nat -> Salts)
    requires Lawful(c) && Users(c, s, users, salts).0.Some?
    ensures |Users(c, s, users, salts).0.value| == |users|
  {
    if users != [] { UsersSize(c, s, users[..|users| - 1], salts); }
  }

  /** What the users' turns add, one by one. */
  lemma LastTurn(c: Crypto, s: Contents, users: seq<User>, salts: nat -> Salts)
    requires Lawful(c) && users != [] && Users(c, s, users, salts).0.Some?
    ensures var before := Users(c, s, users[..|users| - 1], salts);
            var e := Ensure(c, before.1, users[|users| - 1], salts(|users| - 1));
            && before.0.Some? && e.0.Some? && Users(c, s, users, salts).1 == e.1
            && Users(c, s, users, salts).0.value == before.0.value + [AcUser(users[|users| - 1], e.0.value)]
  {}

  /** Where the user's own turn leaves the credentials it returns. */
  lemma {:induction false} UserTurn(c: Crypto, s: Contents, users: seq<User>, salts: nat -> Salts, i: nat)
    requires Lawful(c) && Users(c, s, users, salts).0.Some? && i < |users|
    ensures |Users(c, s, users, salts).0.value| == |users|
    ensures var r := Users(c, s, users, salts).0.value[i];
            SameUser(r, users[i], r.creds)
            && ReadExisting(Users(c, s, users[..i + 1], salts).1, users[i].credentialsName) == Some(r.creds)
    decreases |users|
  {
    hide Users, Ensure, ReadExisting, AcUser, SameUser;
    var init, last := users[..|users| - 1], users[|users| - 1];
    var before := Users(c, s, init, salts);
    LastTurn(c, s, users, salts);
    UsersSize(c, s, users, salts);
    UsersSize(c, s, init, salts);
    if i < |users| - 1 {
      UserTurn(c, s, init, salts, i);
      assert init[..i + 1] == users[..i + 1] && init[i] == users[i];
    } else {
      assert users[..i + 1] == users;
      OneTurn(c, before.1, last, salts(i));
      AcUserMeans(last, Ensure(c, before.1, last, salts(i)).0.value);
      UserCreds(last, Ensure(c, before.1, last, salts(i)).0.value);
    }
  }

  lemma UserCreds(u: User, p: Pair)
    ensures AcUser(u, p).creds == p
  {}

  lemma OneTurn(c: Crypto, s: Contents, u: User, draw: Salts)
    requires Lawful(c) && Ensure(c, s, u, draw).0.Some?
    ensures ReadExisting(Ensure(c, s, u, draw).1, u.credentialsName) == Ensure(c, s, u, draw).0
  {
    var read := ReadKey(s, u.passwordName, u.passwordKey);
    if read.Found? { EnsureVerifies(c, s, u, draw, read.value); }
  }

  /**
   With distinct names every user is configured under its own name, database and roles, with the credentials that the
   secrets hold for it afterwards.
   */
  lemma EnablesUsers(c: Crypto, s: Contents, x: Setup, r: Random, i: nat)
    requires Lawful(c) && NamesDistinct(x) && Enable(c, s, x, r).0.Some? && i < |x.users|
    ensures var e := Enable(c, s, x, r);
            && e.0.value.users.Some? && |e.0.value.users.value| == |x.users|
            && var u := e.0.value.users.value[i];
               SameUser(u, x.users[i], u.creds) && ReadExisting(e.1, x.users[i].credentialsName) == Some(u.creds)
  {
    hide Users;
    UserTurn(c, s, x.users, r.salts, i);
    EnablesAgent(c, s, x, r);
    FinalAgrees(c, s, x, r, i);
    SameCredentials(Users(c, s, x.users[..i + 1], r.salts).1, Enable(c, s, x, r).1, x.users[i].credentialsName);
  }

  lemma SameCredentials(s: Contents, t: Contents, name: string)
    requires Get(s, name) == Get(t, name)
    ensures ReadExisting(s, name) == ReadExisting(t, name)
  {
    assert Get(s, name).Some? <==> name in s;
    assert Get(t, name).Some? <==> name in t;
  }
}
