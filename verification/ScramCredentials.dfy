/** SCRAM credentials: pkg/authentication/scramcredentials against RFC 5802. */
module ScramCredentials {
  import opened Wrappers

  type Bytes = seq<bv8>

  const SALT_SIZE_GAP := 4
  const SHA1_ITERATIONS := 10000
  const SHA256_ITERATIONS := 15000

  /** A hash function with its HMAC; both are taken as given. */
  datatype Hash = Hash(size: nat, hmac: (Bytes, Bytes) -> Bytes, digest: Bytes -> Bytes)

  ghost predicate FixedLength(h: Hash) {
    forall key, message :: |h.hmac(key, message)| == h.size
  }

  function Xor(a: Bytes, b: Bytes): (r: Bytes)
    requires |a| == |b|
    ensures |r| == |a|
  {
    seq(|a|, i requires 0 <= i < |a| => a[i] ^ b[i])
  }

  // ---- RFC 5802 ----

  /** U1, U2, ... of section 2.2. */
  function U(h: Hash, str: Bytes, salt: Bytes, i: nat): (r: Bytes)
    requires i >= 1
  {
    if i == 1 then h.hmac(str, salt + [0, 0, 0, 1]) else h.hmac(str, U(h, str, salt, i - 1))
  }

  /** Hi(str, salt, i) := U1 XOR U2 XOR ... XOR Ui, section 2.2. */
  ghost function Hi(h: Hash, str: Bytes, salt: Bytes, i: nat): (r: Bytes)
    requires i >= 1 && FixedLength(h)
    ensures |r| == h.size
  {
    if i == 1 then U(h, str, salt, 1) else Xor(Hi(h, str, salt, i - 1), U(h, str, salt, i))
  }

  /** U1, U2, ...: the first from the salt and INT(1), each other from the one before. */
  ghost predicate IsChain(h: Hash, str: Bytes, salt: Bytes, us: seq<Bytes>) {
    && (us != [] ==> us[0] == h.hmac(str, salt + [0, 0, 0, 1]))
    && (forall i :: 1 <= i < |us| ==> us[i] == h.hmac(str, us[i - 1]))
    && forall i :: 0 <= i < |us| ==> |us[i]| == h.size
  }

  ghost function XorAt(us: seq<Bytes>, j: nat): (x: bv8)
    requires forall i :: 0 <= i < |us| ==> j < |us[i]|
  {
    if us == [] then 0 else XorAt(us[..|us| - 1], j) ^ us[|us| - 1][j]
  }

  /** Byte by byte, Hi is the exclusive or of the chain. */
  lemma {:induction false} HiBytes(h: Hash, str: Bytes, salt: Bytes, us: seq<Bytes>, j: nat)
    requires FixedLength(h) && IsChain(h, str, salt, us) && us != [] && j < h.size
    ensures us[|us| - 1] == U(h, str, salt, |us|) && Hi(h, str, salt, |us|)[j] == XorAt(us, j)
  {
    var init := us[..|us| - 1];
    if init == [] {
      assert XorAt(us, j) == XorAt([], j) ^ us[0][j];
      assert 0 ^ us[0][j] == us[0][j];
    } else {
      assert IsChain(h, str, salt, init);
      HiBytes(h, str, salt, init, j);
    }
  }

  /** StoredKey := H(HMAC(SaltedPassword, "Client Key")), section 3. */
  function StoredKey(h: Hash, saltedPassword: Bytes, clientKeyInput: Bytes): (r: Bytes) {
    h.digest(h.hmac(saltedPassword, clientKeyInput))
  }

  /** ServerKey := HMAC(SaltedPassword, "Server Key"), section 3. */
  function ServerKey(h: Hash, saltedPassword: Bytes, serverKeyInput: Bytes): (r: Bytes) {
    h.hmac(saltedPassword, serverKeyInput)
  }

  // ---- The implementation ----

  function AtLeastOne(n: int): (r: nat)
    ensures r >= 1
  { if n < 1 then 1 else n }

  /** The byte-wise xor into the result buffer. */
  method XorInto(result: array<bv8>, digest: Bytes)
    requires |digest| == result.Length
    modifies result
    ensures result[..] == Xor(old(result[..]), digest)
  {
    for i := 0 to |digest|
      invariant forall j :: 0 <= j < i ==> result[j] == old(result[j]) ^ digest[j]
      invariant forall j :: i <= j < result.Length ==> result[j] == old(result[j])
    {
      result[i] := result[i] ^ digest[i];
    }
  }

  /** hmacIteration is Hi; a count below one behaves as one, and only the salt's size can fail. */
  method HmacIteration(h: Hash, input: Bytes, salt: Bytes, iterationCount: int) returns (r: Result<Bytes>)
    requires FixedLength(h)
    ensures r.Err? <==> |salt| != h.size - SALT_SIZE_GAP
    ensures r.Ok? ==> r.value == Hi(h, input, salt, AtLeastOne(iterationCount)) && |r.value| == h.size
  {
    if |salt| != h.size - SALT_SIZE_GAP {
      return Err("salt size");
    }
    var startKey := salt + [0, 0, 0, 1];
    var result := new bv8[h.size];
    var digest := h.hmac(input, startKey);
    for i := 0 to |digest|
      invariant forall j :: 0 <= j < i ==> result[j] == digest[j]
    {
      result[i] := digest[i];
    }
    assert result[..] == digest;
    var i := 1;
    while i < iterationCount
      invariant 1 <= i <= AtLeastOne(iterationCount)
      invariant digest == U(h, input, salt, i) && |digest| == h.size
      invariant result[..] == Hi(h, input, salt, i)
    {
      digest := h.hmac(input, digest);
      XorInto(result, digest);
      i := i + 1;
    }
    return Ok(result[..]);
  }

  /** What the package takes from libraries. */
  datatype Crypto = Crypto(sha1: Hash, sha256: Hash, utf8: string -> Bytes, saslPrep: string -> Option<string>,
                           md5Hex: string -> string, encode: Bytes -> string, decode: string -> Option<Bytes>)

  ghost predicate Lawful(c: Crypto) {
    && FixedLength(c.sha1) && FixedLength(c.sha256)
    && forall bytes :: c.decode(c.encode(bytes)) == Some(bytes)
  }

  datatype ScramCreds = ScramCreds(iterationCount: int, salt: string, serverKey: string, storedKey: string)

  /** The credentials RFC 5802 assigns to a password under a salt, encoded; None when the inputs are unusable. */
  ghost function RfcCreds(c: Crypto, h: Hash, iterations: int, encodedSalt: string, password: string)
    : (r: Option<ScramCreds>)
    requires FixedLength(h)
  {
    var salt := c.decode(encodedSalt);
    var prepared := c.saslPrep(password);
    if salt.None? || prepared.None? || |salt.value| != h.size - SALT_SIZE_GAP then None
    else
      var salted := Hi(h, c.utf8(prepared.value), salt.value, AtLeastOne(iterations));
      Some(ScramCreds(iterations, encodedSalt,
                      c.encode(ServerKey(h, salted, c.utf8("Server Key"))),
                      c.encode(StoredKey(h, salted, c.utf8("Client Key")))))
  }

  method GenerateSaltedPassword(c: Crypto, h: Hash, password: string, salt: Bytes, iterationCount: int)
    returns (r: Result<Bytes>)
    requires FixedLength(h)
    ensures r.Ok? <==> c.saslPrep(password).Some? && |salt| == h.size - SALT_SIZE_GAP
    ensures r.Ok? ==> r.value == Hi(h, c.utf8(c.saslPrep(password).value), salt, AtLeastOne(iterationCount))
  {
    var prepared := c.saslPrep(password);
    if prepared.None? { return Err("could not SASLprep password"); }
    r := HmacIteration(h, c.utf8(prepared.value), salt, iterationCount);
  }

  method ComputeScramCredentials(c: Crypto, h: Hash, iterationCount: int, encodedSalt: string, password: string)
    returns (r: Result<ScramCreds>)
    requires FixedLength(h)
    ensures r.Ok? <==> RfcCreds(c, h, iterationCount, encodedSalt, password).Some?
    ensures r.Ok? ==> RfcCreds(c, h, iterationCount, encodedSalt, password) == Some(r.value)
    ensures r.Ok? ==>
              && c.decode(encodedSalt).Some? && c.saslPrep(password).Some?
              && var salted := Hi(h, c.utf8(c.saslPrep(password).value), c.decode(encodedSalt).value,
                                  AtLeastOne(iterationCount));
                 && r.value.storedKey == c.encode(h.digest(h.hmac(salted, c.utf8("Client Key"))))
                 && r.value.serverKey == c.encode(h.hmac(salted, c.utf8("Server Key")))
                 && r.value.salt == encodedSalt && r.value.iterationCount == iterationCount
  {
    var salt := c.decode(encodedSalt);
    if salt.None? { return Err("error decoding salt"); }
    var salted := GenerateSaltedPassword(c, h, password, salt.value, iterationCount);
    if salted.Err? { return Err("error generating secrets"); }
    var clientKey := h.hmac(salted.value, c.utf8("Client Key"));
    var storedKey := h.digest(clientKey);
    var serverKey := h.hmac(salted.value, c.utf8("Server Key"));
    r := Ok(ScramCreds(iterationCount, encodedSalt, c.encode(serverKey), c.encode(storedKey)));
  }

  /** Both credentials of one user. */
  datatype Pair = Pair(sha1: ScramCreds, sha256: ScramCreds)

  /** Recomputation of both credentials from a password and two salts. */
  ghost function Computed(c: Crypto, username: string, password: string, sha1Salt: Bytes, sha256Salt: Bytes)
    : (r: Option<Pair>)
    requires Lawful(c)
  {
    var one := RfcCreds(c, c.sha1, SHA1_ITERATIONS, c.encode(sha1Salt), c.md5Hex(username + ":mongo:" + password));
    var two := RfcCreds(c, c.sha256, SHA256_ITERATIONS, c.encode(sha256Salt), password);
    if one.None? || two.None? then None else Some(Pair(one.value, two.value))
  }

  method ComputeScramShaCredentials(c: Crypto, username: string, password: string, sha1Salt: Bytes, sha256Salt: Bytes)
    returns (r: Result<Pair>)
    requires Lawful(c)
    ensures r.Ok? <==> Computed(c, username, password, sha1Salt, sha256Salt).Some?
    ensures r.Ok? ==> Computed(c, username, password, sha1Salt, sha256Salt) == Some(r.value)
    ensures r.Ok? ==>
              && Some(r.value.sha1) ==
                 RfcCreds(c, c.sha1, 10000, c.encode(sha1Salt), c.md5Hex(username + ":mongo:" + password))
              && Some(r.value.sha256) == RfcCreds(c, c.sha256, 15000, c.encode(sha256Salt), password)
  {
    var one := ComputeScramCredentials(c, c.sha1, SHA1_ITERATIONS, c.encode(sha1Salt),
                                       c.md5Hex(username + ":mongo:" + password));
    if one.Err? { return Err("could not generate scramSha1Creds"); }
    var two := ComputeScramCredentials(c, c.sha256, SHA256_ITERATIONS, c.encode(sha256Salt), password);
    if two.Err? { return Err("could not generate scramSha256Creds"); }
    r := Ok(Pair(one.value, two.value));
  }

  /** What computing fixes: the salts can be read back from the result, and recomputing with them gives it again. */
  lemma ComputedAgain(c: Crypto, username: string, password: string, sha1Salt: Bytes, sha256Salt: Bytes)
    requires Lawful(c) && Computed(c, username, password, sha1Salt, sha256Salt).Some?
    ensures var p := Computed(c, username, password, sha1Salt, sha256Salt).value;
            && c.decode(p.sha1.salt) == Some(sha1Salt) && c.decode(p.sha256.salt) == Some(sha256Salt)
            && p.sha1.iterationCount == SHA1_ITERATIONS && p.sha256.iterationCount == SHA256_ITERATIONS
  {}
}
