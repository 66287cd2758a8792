/** The JWT configuration object: signing secret, algorithm, lifetimes, issuer and audience,
    and the rotation key ring (kid => secret) with the kid that signs new tokens.
    The constructor reads the environment; getenv and json_decode are passed in. */
module JwtConfig {
  import opened Text
  import opened Php

  /** The environment values the constructor reads; None is getenv() returning false. */
  datatype Env = Env(encryptionKey: Option<string>, jwtKeys: Option<string>, currentKid: Option<string>)

  /** What json_decode($keysJson, true) yields: an array of kid => secret entries in
      declaration order, or something that is not an array (invalid JSON, a scalar). */
  datatype KeysJson = KeyArray(entries: KeyList) | NotAnArray

  /** An ordered key ring: kid => secret, in insertion order. */
  type KeyList = seq<(string, string)>

  const DefaultKid: string := "default"

  /** `$keys[$kid] ?? null`: the secret stored under `kid`. */
  function Lookup(keys: KeyList, kid: string): (r: Option<string>)
    ensures r.Some? ==> (kid, r.value) in keys
    ensures r.None? ==> forall i :: 0 <= i < |keys| ==> keys[i].0 != kid
  {
    if keys == [] then None
    else if keys[0].0 == kid then Some(keys[0].1)
    else Lookup(keys[1..], kid)
  }

  function Kids(keys: KeyList): set<string> {
    set i | 0 <= i < |keys| :: keys[i].0
  }

  /** The settings the authentication service reads, as values. */
  datatype Settings = Settings(
    key: string,
    algorithm: string,
    ttl: int,
    allowedAlgorithms: seq<string>,
    accessTtl: int,
    refreshTtl: int,
    leeway: int,
    issuer: string,
    audience: string,
    currentKid: Option<string>,
    keys: KeyList)

  /** The primary secret is configured: getenv returned a non-empty string. */
  predicate SecretConfigured(env: Env) {
    env.encryptionKey.Some? && env.encryptionKey.value != ""
  }

  /** `getenv('JWT_KEYS') ?: ''`, decoded: the rotation entries, or [] when the variable
      is unset or falsy, is not a JSON array, or is an empty one. */
  function RotationEntries(env: Env, parse: string -> KeysJson): KeyList {
    if env.jwtKeys.Some? && StringTruthy(env.jwtKeys.value) then
      match parse(env.jwtKeys.value)
      case KeyArray(entries) => entries
      case NotAnArray => []
    else []
  }

  /** The key ring and current kid the constructor ends with, starting from the field
      initialisers ($keys = [], $currentKid = null). */
  function KeyRing(env: Env, parse: string -> KeysJson): (r: (KeyList, Option<string>))
    requires SecretConfigured(env)
    ensures |r.0| > 0 && r.1.Some?
    ensures RotationEntries(env, parse) != [] ==> r.0 == RotationEntries(env, parse)
  {
    var entries := RotationEntries(env, parse);
    if entries != [] then
      (entries, Some(if env.currentKid.Some? && StringTruthy(env.currentKid.value)
                     then env.currentKid.value else entries[0].0))
    else ([(DefaultKid, env.encryptionKey.value)], Some(DefaultKid))
  }

  class Jwt {
    var key: string
    var algorithm: string
    var ttl: int
    var allowedAlgorithms: seq<string>
    var accessTtl: int
    var refreshTtl: int
    var leeway: int
    var issuer: string
    var audience: string
    var currentKid: Option<string>
    var keys: KeyList

    /** The field initialisers. `key` has none in the source (it stays uninitialised until
        the constructor body assigns it); here it starts as "". */
    constructor Defaults()
      ensures key == "" && algorithm == "HS256" && ttl == 3600
      ensures allowedAlgorithms == ["HS256"]
      ensures accessTtl == 900 && refreshTtl == 1209600 && leeway == 45
      ensures issuer == "https://api.seu-dominio.com" && audience == "https://seu-cliente.com"
      ensures currentKid == None && keys == []
    {
      key := "";
      algorithm := "HS256";
      ttl := 3600;
      allowedAlgorithms := ["HS256"];
      accessTtl := 900;
      refreshTtl := 1209600;
      leeway := 45;
      issuer := "https://api.seu-dominio.com";
      audience := "https://seu-cliente.com";
      currentKid := None;
      keys := [];
    }

    function Snapshot(): (s: Settings)
      reads this
      ensures s.key == key && s.keys == keys && s.currentKid == currentKid
    {
      Settings(key, algorithm, ttl, allowedAlgorithms, accessTtl, refreshTtl, leeway,
               issuer, audience, currentKid, keys)
    }

    /** The constructor body: read the primary secret (or throw RuntimeException before
        touching any field), then the optional rotation set, then fall back to a single
        "default" key when no rotation set is left. */
    method ReadEnvironment(env: Env, parse: string -> KeysJson) returns (r: Outcome<()>)
      requires keys == [] && currentKid == None
      modifies this`key, this`keys, this`currentKid
      ensures r.Throws? <==> !SecretConfigured(env)
      ensures r.Throws? ==> r.error == Runtime && unchanged(this)
      ensures r.Returns? ==> key == env.encryptionKey.value
      ensures r.Returns? ==> (keys, currentKid) == KeyRing(env, parse)
    {
      var envKey := env.encryptionKey;
      if envKey.None? || envKey.value == "" {
        return Throws(Runtime);
      } else {
        key := envKey.value;
      }

      var keysJson := if envKey.Some? && env.jwtKeys.Some? && StringTruthy(env.jwtKeys.value)
                      then env.jwtKeys.value else "";
      if keysJson != "" {
        var decoded := parse(keysJson);
        if decoded.KeyArray? && |decoded.entries| > 0 {
          keys := decoded.entries;
          var kidEnv := env.currentKid;
          currentKid := Some(if kidEnv.Some? && StringTruthy(kidEnv.value)
                             then kidEnv.value else decoded.entries[0].0);
        }
      }

      if keys == [] {
        keys := [(DefaultKid, key)];
        currentKid := Some(DefaultKid);
      }
      r := Returns(());
    }

    /** `new Jwt()`: the field initialisers followed by the constructor body. After a
        successful construction the key ring is non-empty and a current kid is set. */
    static method Load(env: Env, parse: string -> KeysJson) returns (cfg: Jwt, r: Outcome<()>)
      ensures fresh(cfg)
      ensures r.Throws? <==> !SecretConfigured(env)
      ensures r.Returns? ==> cfg.key == env.encryptionKey.value
      ensures r.Returns? ==> (cfg.keys, cfg.currentKid) == KeyRing(env, parse)
      ensures r.Returns? ==> |cfg.keys| > 0 && cfg.currentKid.Some?
      ensures cfg.algorithm == "HS256" && cfg.allowedAlgorithms == ["HS256"]
      ensures cfg.accessTtl == 900 && cfg.refreshTtl == 1209600 && cfg.leeway == 45 && cfg.ttl == 3600
    {
      cfg := new Jwt.Defaults();
      r := cfg.ReadEnvironment(env, parse);
    }
  }

  /** With a rotation set configured, the current kid is JWT_CURRENT_KID when that is a
      non-empty string other than "0", else the first kid of the set. */
  lemma CurrentKidChoice(env: Env, parse: string -> KeysJson)
    requires SecretConfigured(env)
    requires RotationEntries(env, parse) != []
    ensures var (keys, kid) := KeyRing(env, parse);
      kid.value == if env.currentKid.Some? && StringTruthy(env.currentKid.value)
                   then env.currentKid.value else keys[0].0
  {
  }

  /** Without a usable rotation set, the ring is exactly {"default" => primary secret}. */
  lemma DefaultRing(env: Env, parse: string -> KeysJson)
    requires SecretConfigured(env)
    requires RotationEntries(env, parse) == []
    ensures KeyRing(env, parse) == ([(DefaultKid, env.encryptionKey.value)], Some(DefaultKid))
  {
  }

  /** Nothing checks that an overriding JWT_CURRENT_KID names a kid of the ring. */
  lemma CurrentKidMayBeUnknown()
    ensures var env := Env(Some("primary"), Some("{\"k1\":\"s1\"}"), Some("k9"));
      var parse := (s: string) => KeyArray([("k1", "s1")]);
      var (keys, kid) := KeyRing(env, parse);
      kid == Some("k9") && "k9" !in Kids(keys)
  {
    var env := Env(Some("primary"), Some("{\"k1\":\"s1\"}"), Some("k9"));
    var parse := (s: string) => KeyArray([("k1", "s1")]);
    assert RotationEntries(env, parse) == [("k1", "s1")];
    var (keys, kid) := KeyRing(env, parse);
    assert keys == [("k1", "s1")] && keys[0].0 == "k1";
  }
}
