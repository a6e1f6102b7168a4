/** The stored-credential protocol of pkg/authentication/scram. */
module Scram {
  import opened Wrappers
  import opened ScramCredentials
  import opened Secrets

  const SHA1_SALT := "sha1-salt"
  const SHA256_SALT := "sha256-salt"
  const SHA1_SERVER_KEY := "sha-1-server-key"
  const SHA256_SERVER_KEY := "sha-256-server-key"
  const SHA1_STORED_KEY := "sha-1-stored-key"
  const SHA256_STORED_KEY := "sha-256-stored-key"

  datatype User = User(username: string, database: string, roles: seq<(string, string)>,
                       passwordKey: string, passwordName: string, credentialsName: string)

  /** Freshly drawn salts. */
  datatype Salts = Salts(sha1: Bytes, sha256: Bytes)

  /** The generator cuts salts to the size the algorithms expect. */
  predicate Sized(c: Crypto, d: Salts) {
    |d.sha1| == c.sha1.size - SALT_SIZE_GAP && |d.sha256| == c.sha256.size - SALT_SIZE_GAP
  }

  /** The keys HasAllKeys is asked for: the SHA-1 server key twice, the SHA-1 stored key never. */
  const REQUIRED_KEYS := [SHA1_SALT, SHA1_SERVER_KEY, SHA1_SERVER_KEY, SHA256_SALT, SHA256_SERVER_KEY,
                          SHA256_STORED_KEY]

  function Stored(s: Secret): (p: Pair) {
    Pair(ScramCreds(SHA1_ITERATIONS, Field(s, SHA1_SALT), Field(s, SHA1_SERVER_KEY), Field(s, SHA1_STORED_KEY)),
         ScramCreds(SHA256_ITERATIONS, Field(s, SHA256_SALT), Field(s, SHA256_SERVER_KEY), Field(s, SHA256_STORED_KEY)))
  }

  function Encoded(p: Pair): (s: Secret) {
    map[SHA1_SALT := p.sha1.salt, SHA1_STORED_KEY := p.sha1.storedKey, SHA1_SERVER_KEY := p.sha1.serverKey,
        SHA256_SALT := p.sha256.salt, SHA256_STORED_KEY := p.sha256.storedKey, SHA256_SERVER_KEY := p.sha256.serverKey]
  }

  predicate HasRequired(s: Secret) {
    && SHA1_SALT in s && SHA1_SERVER_KEY in s && SHA256_SALT in s && SHA256_SERVER_KEY in s && SHA256_STORED_KEY in s
  }

  /** What reading stored credentials yields; None stands for an error. */
  function ReadExisting(s: Contents, name: string): (r: Option<Pair>) {
    if name in s && HasRequired(s[name]) then Some(Stored(s[name])) else None
  }

  /** Storing and reading credentials is a round trip. */
  lemma StoredEncoded(s: Contents, name: string, p: Pair)
    requires p.sha1.iterationCount == SHA1_ITERATIONS && p.sha256.iterationCount == SHA256_ITERATIONS
    ensures ReadExisting(s[name := Encoded(p)], name) == Some(p)
  {
    var e := Encoded(p);
    assert SHA1_SALT in e && SHA1_SERVER_KEY in e && SHA256_SALT in e && SHA256_SERVER_KEY in e
           && SHA256_STORED_KEY in e && SHA1_STORED_KEY in e;
    assert SHA1_SALT != SHA256_SALT;
    assert |SHA1_SALT| == 9 && |SHA256_SALT| == 11 && |SHA1_SERVER_KEY| == 16 && |SHA256_SERVER_KEY| == 18;
    assert SHA1_SERVER_KEY[7] == 'e' && SHA1_STORED_KEY[7] == 't' && SHA256_SERVER_KEY[9] == 'e'
           && SHA256_STORED_KEY[9] == 't';
  }

  /** Recomputation from the password and the salts kept in the secret. */
  ghost function Recomputed(c: Crypto, u: User, password: string, s: Secret): (r: Option<Pair>)
    requires Lawful(c)
  {
    var one, two := c.decode(Field(s, SHA1_SALT)), c.decode(Field(s, SHA256_SALT));
    if one.None? || two.None? then None else Computed(c, u.username, password, one.value, two.value)
  }

  datatype Need = Fresh | Keep | Broken

  ghost function NeedNew(c: Crypto, s: Contents, u: User, password: string): (r: Need)
    requires Lawful(c)
  {
    if u.credentialsName !in s then Fresh
    else
      var again := Recomputed(c, u, password, s[u.credentialsName]);
      var existing := ReadExisting(s, u.credentialsName);
      if again.None? || existing.None? then Broken
      else if again != existing then Fresh else Keep
  }

  /** One call of ensureScramCredentials: the credentials, if it succeeds, and the secrets afterwards. */
  ghost function Ensure(c: Crypto, s: Contents, u: User, draw: Salts): (r: (Option<Pair>, Contents))
    requires Lawful(c)
  {
    match ReadKey(s, u.passwordName, u.passwordKey)
    case NoSecret => (ReadExisting(s, u.credentialsName), s)
    case NoKey => (None, s)
    case Found(password) =>
      match NeedNew(c, s, u, password)
      case Broken => (None, s)
      case Keep => (ReadExisting(s, u.credentialsName), s)
      case Fresh =>
        var p := Computed(c, u.username, password, draw.sha1, draw.sha256);
        if p.None? then (None, s) else (p, s[u.credentialsName := Encoded(p.value)])
  }

  // ---- The methods ----

  method ReadExistingCredentials(store: SecretStore, name: string) returns (r: Option<Pair>)
    ensures r == ReadExisting(store.contents, name)
  {
    var secret := store.GetSecret(name);
    if secret.None? { return None; }
    var complete := HasAllKeys(secret.value, REQUIRED_KEYS);
    assert HasRequired(secret.value) <==> forall k :: k in REQUIRED_KEYS ==> k in secret.value by {
      assert REQUIRED_KEYS[0] == SHA1_SALT && REQUIRED_KEYS[1] == SHA1_SERVER_KEY && REQUIRED_KEYS[3] == SHA256_SALT
          && REQUIRED_KEYS[4] == SHA256_SERVER_KEY && REQUIRED_KEYS[5] == SHA256_STORED_KEY;
    }
    if !complete { return None; }
    r := Some(Stored(secret.value));
  }

  method NeedToGenerateNewCredentials(c: Crypto, store: SecretStore, u: User, password: string) returns (r: Need)
    requires Lawful(c)
    ensures r == NeedNew(c, store.contents, u, password)
  {
    var secret := store.GetSecret(u.credentialsName);
    if secret.None? { return Fresh; }
    var sha1Salt := c.decode(Field(secret.value, SHA1_SALT));
    if sha1Salt.None? { return Broken; }
    var sha256Salt := c.decode(Field(secret.value, SHA256_SALT));
    if sha256Salt.None? { return Broken; }
    var again := ComputeScramShaCredentials(c, u.username, password, sha1Salt.value, sha256Salt.value);
    if again.Err? { return Broken; }
    var existing := ReadExistingCredentials(store, u.credentialsName);
    if existing.None? { return Broken; }
    r := if again.value != existing.value then Fresh else Keep;
  }

  method EnsureScramCredentials(c: Crypto, store: SecretStore, u: User, draw: Salts) returns (r: Option<Pair>)
    requires Lawful(c)
    modifies store
    ensures (r, store.contents) == Ensure(c, old(store.contents), u, draw)
  {
    var secret := store.GetSecret(u.passwordName);
    if secret.None? {
      r := ReadExistingCredentials(store, u.credentialsName);
      return;
    }
    if u.passwordKey !in secret.value { return None; }
    var password := secret.value[u.passwordKey];
    var need := NeedToGenerateNewCredentials(c, store, u, password);
    match need {
      case Broken => return None;
      case Keep => r := ReadExistingCredentials(store, u.credentialsName);
      case Fresh =>
        var p := ComputeScramShaCredentials(c, u.username, password, draw.sha1, draw.sha256);
        if p.Err? { return None; }
        store.CreateOrUpdate(u.credentialsName, Encoded(p.value));
        r := Some(p.value);
    }
  }

  // ---- What one call guarantees ----

  /** The pair is stored under the user's name and is what the password gives with the stored salts. */
  ghost predicate Verifies(c: Crypto, s: Contents, u: User, password: string, p: Pair)
    requires Lawful(c)
  {
    && u.credentialsName in s && ReadExisting(s, u.credentialsName) == Some(p)
    && Recomputed(c, u, password, s[u.credentialsName]) == Some(p)
  }

  /** With the password present, success returns what is stored, and that is what the password gives. */
  lemma EnsureVerifies(c: Crypto, s: Contents, u: User, draw: Salts, password: string)
    requires Lawful(c) && ReadKey(s, u.passwordName, u.passwordKey) == Found(password)
    requires Ensure(c, s, u, draw).0.Some?
    ensures var r := Ensure(c, s, u, draw); Verifies(c, r.1, u, password, r.0.value)
  {
    if NeedNew(c, s, u, password).Fresh? {
      var p := Computed(c, u.username, password, draw.sha1, draw.sha256).value;
      ComputedAgain(c, u.username, password, draw.sha1, draw.sha256);
      StoredEncoded(s, u.credentialsName, p);
      var secret := s[u.credentialsName := Encoded(p)][u.credentialsName];
      assert Stored(secret) == p;
      assert Field(secret, SHA1_SALT) == Stored(secret).sha1.salt
             && Field(secret, SHA256_SALT) == Stored(secret).sha256.salt;
    }
  }

  /**
   New credentials are generated exactly when there are none or the stored ones are not what the password gives;
   damaged ones (an undecodable or wrongly sized salt, a required key missing) are an error instead.
   */
  lemma RegeneratesIff(c: Crypto, s: Contents, u: User, draw: Salts, password: string)
    requires Lawful(c) && ReadKey(s, u.passwordName, u.passwordKey) == Found(password)
    ensures NeedNew(c, s, u, password).Fresh? <==>
            u.credentialsName !in s
            || (&& HasRequired(s[u.credentialsName]) && Recomputed(c, u, password, s[u.credentialsName]).Some?
                && Recomputed(c, u, password, s[u.credentialsName]) != Some(Stored(s[u.credentialsName])))
    ensures NeedNew(c, s, u, password).Fresh? && Sized(c, draw)
            && c.saslPrep(password).Some? && c.saslPrep(c.md5Hex(u.username + ":mongo:" + password)).Some? ==>
            Ensure(c, s, u, draw).0.Some? && u.credentialsName in Ensure(c, s, u, draw).1
    ensures !NeedNew(c, s, u, password).Fresh? ==> Ensure(c, s, u, draw).1 == s
  {
    assert c.decode(c.encode(draw.sha1)) == Some(draw.sha1) && c.decode(c.encode(draw.sha256)) == Some(draw.sha256);
  }

  /** Every part of the credentials is a field of the secret. */
  predicate FieldsOf(p: Pair, s: Secret) {
    && Holds(s, SHA1_SALT, p.sha1.salt) && Holds(s, SHA1_SERVER_KEY, p.sha1.serverKey)
    && Holds(s, SHA1_STORED_KEY, p.sha1.storedKey)
    && Holds(s, SHA256_SALT, p.sha256.salt) && Holds(s, SHA256_SERVER_KEY, p.sha256.serverKey)
    && Holds(s, SHA256_STORED_KEY, p.sha256.storedKey)
  }

  predicate Holds(s: Secret, key: string, value: string) { key in s && s[key] == value }

  /**
   The gap left by REQUIRED_KEYS: what a successful call returns is what the secret then holds exactly when the secret
   had the SHA-1 stored key before, or new credentials are generated. Without a password nothing else looks for that
   key: success depends on the other five, and an empty key is handed out in place of a missing one.
   */
  lemma ReturnsFieldsIff(c: Crypto, s: Contents, u: User, draw: Salts)
    requires Lawful(c)
    ensures var r := Ensure(c, s, u, draw);
            var read := ReadKey(s, u.passwordName, u.passwordKey);
            r.0.Some? ==>
              && u.credentialsName in r.1
              && (FieldsOf(r.0.value, r.1[u.credentialsName]) <==>
                  || (u.credentialsName in s && SHA1_STORED_KEY in s[u.credentialsName])
                  || (read.Found? && NeedNew(c, s, u, read.value).Fresh?))
    ensures u.passwordName !in s ==>
              var r := Ensure(c, s, u, draw);
              && r.1 == s && (r.0.Some? <==> u.credentialsName in s && HasRequired(s[u.credentialsName]))
              && (r.0.Some? ==>
                    (FieldsOf(r.0.value, s[u.credentialsName]) <==> SHA1_STORED_KEY in s[u.credentialsName])
                    && (SHA1_STORED_KEY !in s[u.credentialsName] ==> r.0.value.sha1.storedKey == ""))
  {
    var r := Ensure(c, s, u, draw);
    var read := ReadKey(s, u.passwordName, u.passwordKey);
    if r.0.Some? && read.Found? && NeedNew(c, s, u, read.value).Fresh? {
      StoredFields(r.0.value);
      EnsureVerifies(c, s, u, draw, read.value);
    } else if r.0.Some? {
      assert r.0 == ReadExisting(s, u.credentialsName) && r.1 == s;
    }
  }

  lemma StoredFields(p: Pair)
    ensures FieldsOf(p, Encoded(p))
  {
    assert |SHA1_SALT| == 9 && |SHA256_SALT| == 11 && |SHA1_SERVER_KEY| == 16 && |SHA256_SERVER_KEY| == 18;
    assert SHA1_SERVER_KEY[7] == 'e' && SHA1_STORED_KEY[7] == 't';
    assert SHA256_SERVER_KEY[9] == 'e' && SHA256_STORED_KEY[9] == 't';
  }

  // ---- Whole runs ----

  datatype Op = SetPassword(password: string) | DeletePassword | Reconcile(draw: Salts)

  /** The secrets, and what the last successful call with a password returned for which password. */
  datatype RunState = RunState(secrets: Contents, last: Option<(string, Pair)>)

  ghost function Apply(c: Crypto, u: User, st: RunState, op: Op): (r: RunState)
    requires Lawful(c)
  {
    match op
    case SetPassword(password) =>
      st.(secrets := st.secrets[u.passwordName :=
        (if u.passwordName in st.secrets then st.secrets[u.passwordName] else map[])[u.passwordKey := password]])
    case DeletePassword => st.(secrets := st.secrets - {u.passwordName})
    case Reconcile(draw) =>
      var r := Ensure(c, st.secrets, u, draw);
      var read := ReadKey(st.secrets, u.passwordName, u.passwordKey);
      RunState(r.1, if read.Found? && r.0.Some? then Some((read.value, r.0.value)) else st.last)
  }

  ghost function Run(c: Crypto, u: User, st: RunState, ops: seq<Op>): (r: RunState)
    requires Lawful(c)
  {
    if ops == [] then st else Apply(c, u, Run(c, u, st, ops[..|ops| - 1]), ops[|ops| - 1])
  }

  /** What is stored is the last success. */
  ghost predicate Remembers(c: Crypto, u: User, st: RunState)
    requires Lawful(c)
  {
    st.last.Some? ==> Verifies(c, st.secrets, u, st.last.value.0, st.last.value.1)
  }

  lemma ApplyRemembers(c: Crypto, u: User, st: RunState, op: Op)
    requires Lawful(c) && u.passwordName != u.credentialsName && Remembers(c, u, st)
    ensures Remembers(c, u, Apply(c, u, st, op))
  {
    hide Recomputed;
    if op.Reconcile? {
      var read := ReadKey(st.secrets, u.passwordName, u.passwordKey);
      var r := Ensure(c, st.secrets, u, op.draw);
      if read.Found? && r.0.Some? {
        EnsureVerifies(c, st.secrets, u, op.draw, read.value);
        assert Verifies(c, r.1, u, read.value, r.0.value);
      }
    }
  }

  lemma {:induction false} RunRemembers(c: Crypto, u: User, st: RunState, ops: seq<Op>)
    requires Lawful(c) && u.passwordName != u.credentialsName && Remembers(c, u, st)
    ensures Remembers(c, u, Run(c, u, st, ops))
  {
    hide Apply, Remembers;
    if ops != [] {
      RunRemembers(c, u, st, ops[..|ops| - 1]);
      ApplyRemembers(c, u, Run(c, u, st, ops[..|ops| - 1]), ops[|ops| - 1]);
    }
  }

  /**
   Over any run of password edits, deletions and reconciliations: once a call has succeeded with a password,
   a call made while that password is unchanged or deleted returns the same credentials and writes nothing.
   */
  lemma RunReturnsLast(c: Crypto, u: User, st: RunState, ops: seq<Op>, draw: Salts)
    requires Lawful(c) && u.passwordName != u.credentialsName && Remembers(c, u, st)
    ensures var now := Run(c, u, st, ops);
            var read := ReadKey(now.secrets, u.passwordName, u.passwordKey);
            now.last.Some? && (read == NoSecret || read == Found(now.last.value.0)) ==>
              Ensure(c, now.secrets, u, draw) == (Some(now.last.value.1), now.secrets)
  {
    RunRemembers(c, u, st, ops);
  }
}
