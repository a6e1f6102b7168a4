/** Connection string secrets: controllers/validation and controllers/mongodb_users. */
module UserSecrets {
  import opened Wrappers
  import opened Secrets
  import Scram

  /** `<resource>-<db>-<user>`. */
  function ConnectionSecretName(resource: string, u: Scram.User): (name: string) {
    resource + "-" + u.database + "-" + u.username
  }

  ghost predicate NamesUnique(resource: string, users: seq<Scram.User>) {
    forall i, j :: 0 <= i < j < |users| ==>
      ConnectionSecretName(resource, users[i]) != ConnectionSecretName(resource, users[j])
  }

  /** validateUsers accepts exactly the user lists whose secret names are pairwise distinct. */
  method ValidateUsers(resource: string, users: seq<Scram.User>) returns (valid: bool)
    ensures valid <==> NamesUnique(resource, users)
  {
    var owners: map<string, Scram.User> := map[];
    var collisions: seq<string> := [];
    ghost var repeat: Option<(nat, nat)> := None;
    for i := 0 to |users|
      invariant owners.Keys == set j | 0 <= j < i :: ConnectionSecretName(resource, users[j])
      invariant collisions == [] <==> repeat.None?
      invariant repeat.None? ==> NamesUnique(resource, users[..i])
      invariant repeat.Some? ==>
        repeat.value.0 < repeat.value.1 < i
        && ConnectionSecretName(resource, users[repeat.value.0]) ==
           ConnectionSecretName(resource, users[repeat.value.1])
    {
      var name := ConnectionSecretName(resource, users[i]);
      if name in owners {
        ghost var j :| 0 <= j < i && name == ConnectionSecretName(resource, users[j]);
        repeat := Some((j, i));
        collisions := collisions + [name];
      } else {
        owners := owners[name := users[i]];
      }
    }
    assert users[..|users|] == users;
    assert repeat.Some? ==> !NamesUnique(resource, users);
    valid := |collisions| == 0;
  }

  /** Distinct users can still collide: the separator may be part of a name. */
  lemma DashCollision(resource: string, u: Scram.User, v: Scram.User)
    requires u.database == "a-b" && u.username == "c" && v.database == "a" && v.username == "b-c"
    ensures u != v && ConnectionSecretName(resource, u) == ConnectionSecretName(resource, v)
    ensures !NamesUnique(resource, [u, v])
  {
    assert resource + "-" + "a-b" + "-" + "c" == resource + "-" + "a" + "-" + "b-c";
    var users := [u, v];
    assert ConnectionSecretName(resource, users[0]) == ConnectionSecretName(resource, users[1]);
  }

  /** How the two URIs are written is left to the caller. */
  datatype Uris = Uris(standard: (Scram.User, string) -> string, srv: (Scram.User, string) -> string)

  function ConnectionSecret(uris: Uris, u: Scram.User, password: string): (s: Secret) {
    map["connectionString.standard" := uris.standard(u, password),
        "connectionString.standardSrv" := uris.srv(u, password),
        "username" := u.username, "password" := password]
  }

  /** The user's name and password and both connection strings made for them, and nothing else. */
  predicate OwnData(data: Secret, uris: Uris, u: Scram.User, password: string) {
    && data.Keys == {"username", "password", "connectionString.standard", "connectionString.standardSrv"}
    && data["username"] == u.username && data["password"] == password
    && data["connectionString.standard"] == uris.standard(u, password)
    && data["connectionString.standardSrv"] == uris.srv(u, password)
  }

  lemma OwnSecret(uris: Uris, u: Scram.User, password: string)
    ensures OwnData(ConnectionSecret(uris, u, password), uris, u, password)
  {
    var data := ConnectionSecret(uris, u, password);
    assert |"username"| == 8 && "username"[0] != "password"[0];
    assert |"connectionString.standard"| == 25 && |"connectionString.standardSrv"| == 28;
  }

  /** The user's secret holds that user's own data. */
  ghost predicate HoldsOwn(s: Contents, resource: string, uris: Uris, u: Scram.User) {
    var read := ReadKey(s, u.passwordName, u.passwordKey);
    var name := resource + "-" + u.database + "-" + u.username;
    read.Found? && name in s && OwnData(s[name], uris, u, read.value)
  }

  /** No password is kept in a secret that the loop writes. */
  ghost predicate PasswordsApart(resource: string, users: seq<Scram.User>) {
    forall i, j :: 0 <= i < |users| && 0 <= j < |users| ==>
      users[i].passwordName != ConnectionSecretName(resource, users[j])
  }

  ghost predicate IsOutput(resource: string, users: seq<Scram.User>, name: string) {
    exists j :: 0 <= j < |users| && name == ConnectionSecretName(resource, users[j])
  }

  /**
   The loop over users. It fails exactly at a password that cannot be read; on success, for a validated list whose
   passwords are kept elsewhere, every user's secret holds that user's own data. Other secrets are never touched.
   */
  method UpdateConnectionStringSecrets(store: SecretStore, resource: string, uris: Uris, users: seq<Scram.User>)
    returns (ok: bool)
    modifies store
    ensures PasswordsApart(resource, users) ==>
              (ok <==> forall i :: 0 <= i < |users| ==>
               ReadKey(old(store.contents), users[i].passwordName, users[i].passwordKey).Found?)
    ensures ok && NamesUnique(resource, users) && PasswordsApart(resource, users) ==>
            forall i :: 0 <= i < |users| ==> HoldsOwn(store.contents, resource, uris, users[i])
    ensures forall name :: !IsOutput(resource, users, name) ==>
            Get(store.contents, name) == Get(old(store.contents), name)
  {
    for i := 0 to |users|
      invariant NamesUnique(resource, users) && PasswordsApart(resource, users) ==>
        forall j :: 0 <= j < i ==> HoldsOwn(store.contents, resource, uris, users[j])
      invariant PasswordsApart(resource, users) ==>
        forall j :: 0 <= j < i ==> ReadKey(old(store.contents), users[j].passwordName, users[j].passwordKey).Found?
      invariant forall name :: !IsOutput(resource, users, name) ==>
                Get(store.contents, name) == Get(old(store.contents), name)
    {
      var u := users[i];
      if PasswordsApart(resource, users) {
        assert !IsOutput(resource, users, u.passwordName);
        SameRead(store.contents, old(store.contents), u);
      }
      var secret := store.GetSecret(u.passwordName);
      if secret.None? || u.passwordKey !in secret.value { return false; }
      ghost var before := store.contents;
      OwnSecret(uris, u, secret.value[u.passwordKey]);
      store.CreateOrUpdate(ConnectionSecretName(resource, u), ConnectionSecret(uris, u, secret.value[u.passwordKey]));
      forall j | 0 <= j < i + 1 && NamesUnique(resource, users) && PasswordsApart(resource, users)
        ensures HoldsOwn(store.contents, resource, uris, users[j])
      {
        assert users[j].passwordName != ConnectionSecretName(resource, u);
        SameRead(store.contents, before, users[j]);
        if j < i {
          assert HoldsOwn(before, resource, uris, users[j]);
          assert ConnectionSecretName(resource, users[j]) != ConnectionSecretName(resource, users[i]);
        }
      }
    }
    ok := true;
  }

  lemma SameRead(s: Contents, t: Contents, u: Scram.User)
    requires Get(s, u.passwordName) == Get(t, u.passwordName)
    ensures ReadKey(s, u.passwordName, u.passwordKey) == ReadKey(t, u.passwordName, u.passwordKey)
  {
    assert Get(s, u.passwordName).Some? <==> u.passwordName in s;
    assert Get(t, u.passwordName).Some? <==> u.passwordName in t;
  }
}
