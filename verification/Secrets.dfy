/** The secrets of one namespace and the helpers of pkg/kube/secret. */
module Secrets {
  import opened Wrappers

  type Secret = map<string, string>
  type Contents = map<string, Secret>

  function Get(s: Contents, name: string): (r: Option<Secret>) {
    if name in s then Some(s[name]) else None
  }

  /** Go's `data[key]`: the empty string when the key is absent. */
  function Field(s: Secret, key: string): (r: string) { if key in s then s[key] else "" }

  datatype KeyRead = Found(value: string) | NoSecret | NoKey

  function ReadKey(s: Contents, name: string, key: string): (r: KeyRead) {
    if name !in s then NoSecret else if key in s[name] then Found(s[name][key]) else NoKey
  }

  /** Creates the secret with the one key unless a secret of that name exists; an existing one is never touched. */
  function EnsureKey(s: Contents, name: string, key: string, value: string): (r: (string, Contents))
    ensures name in r.1 && Field(r.1[name], key) == r.0
    ensures name in s ==> r.1 == s
    ensures name !in s ==> r.0 == value && r.1[name].Keys == {key}
    ensures forall other :: other != name ==> Get(r.1, other) == Get(s, other)
  {
    if name in s then (Field(s[name], key), s) else (value, s[name := map[key := value]])
  }

  class SecretStore {
    var contents: Contents

    constructor (contents: Contents)
      ensures this.contents == contents
    { this.contents := contents; }

    method GetSecret(name: string) returns (r: Option<Secret>)
      ensures r == Get(contents, name)
    { r := if name in contents then Some(contents[name]) else None; }

    /** An update replaces the whole secret. */
    method CreateOrUpdate(name: string, data: Secret)
      modifies this
      ensures contents == old(contents)[name := data]
    { contents := contents[name := data]; }

    method EnsureSecretWithKey(name: string, key: string, value: string) returns (r: string)
      modifies this
      ensures (r, contents) == EnsureKey(old(contents), name, key, value)
    {
      var existing := GetSecret(name);
      if existing.None? {
        CreateOrUpdate(name, map[key := value]);
        return value;
      }
      r := Field(existing.value, key);
    }
  }

  method HasAllKeys(secret: Secret, keys: seq<string>) returns (all: bool)
    ensures all <==> forall k :: k in keys ==> k in secret
  {
    for i := 0 to |keys|
      invariant forall j :: 0 <= j < i ==> keys[j] in secret
    {
      if keys[i] !in secret { return false; }
    }
    return true;
  }
}
