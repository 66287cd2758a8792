/** The authentication service: issuing access, refresh and password-reset tokens,
    verifying presented tokens against the key ring, and the login and password-reset
    flows built on them.

    The JWS codec (firebase/php-jwt) is an oracle: `encode` maps what would be handed to
    JWT::encode to a token string, and `decode(token, secret, alg)` is what JWT::decode does
    with one key at the current time and leeway: the claims, or the exception it throws.
    The user store, the clock and the random source are parameters as well. */
module AuthService {
  import opened Text
  import opened Php
  import opened JwtConfig

  type Claims = Row

  /** A user as the user store returns it: the entity's public array, which always carries
      its public keys, "id" among them. A found user is therefore never the empty (falsy)
      array, and the `!$user` tests are null tests. */
  type User = u: Row | "id" in u witness map["id" := Int(0)]

  /** The arguments of JWT::encode: payload, secret, algorithm, kid header, extra header. */
  datatype Signing = Signing(payload: Claims, secret: string, alg: string, kid: Option<string>, head: map<string, string>)

  datatype Codec = Codec(encode: Signing -> string, decode: (string, string, string) -> Outcome<Claims>)

  /** The user-store collaborator: password check by e-mail, lookup by e-mail and by id. */
  datatype Users = Users(
    verifyPassword: (string, string) -> bool,
    byEmail: string -> Option<User>,
    byId: Value -> Option<User>)

  const PasswordResetTokenTtl: int := 900

  // ----- token issue -----

  function HexDigit(n: nat): (c: char)
    requires n < 16
  {
    if n < 10 then DigitChar(n) else ('a' as int + (n - 10)) as char
  }

  predicate IsLowerHex(c: char) {
    '0' <= c <= '9' || 'a' <= c <= 'f'
  }

  /** bin2hex: two lower-case hexadecimal digits per byte, high nibble first. */
  function Hex(bytes: seq<bv8>): (r: string)
    ensures |r| == 2 * |bytes|
    ensures forall i :: 0 <= i < |r| ==> IsLowerHex(r[i])
  {
    if bytes == [] then []
    else [HexDigit(bytes[0] as nat / 16), HexDigit(bytes[0] as nat % 16)] + Hex(bytes[1..])
  }

  /** The claims signJwt starts from, before the caller's custom claims are merged over them. */
  function BaseClaims(s: Settings, user: Row, ttl: int, issuedAt: int, random: seq<bv8>): Claims {
    map[
      "jti" := Str(Hex(random)),
      "iat" := Int(issuedAt),
      "nbf" := Int(issuedAt),
      "exp" := Int(issuedAt + ttl),
      "iss" := Str(s.issuer),
      "aud" := Str(s.audience),
      "sub" := Str(ToPhpString(Get(user, "id"))),
      "uid" := Get(user, "id")]
  }

  /** The kid signJwt writes into the header and the secret it signs with:
      `currentKid ?? 'default'`, and `keys[kid] ?? key`. */
  function SigningKey(s: Settings): KeyChoice {
    var kid := if s.currentKid.Some? then s.currentKid.value else DefaultKid;
    KeyChoice(kid, match Lookup(s.keys, kid) case Some(secret) => secret case None => s.key)
  }

  datatype KeyChoice = KeyChoice(kid: string, secret: string)

  /** What signJwt hands to the codec; `issuedAt` is its own time() reading and `random`
      its random_bytes(16). Custom claims are merged last (array_merge), so they win. */
  function SignJwtRequest(s: Settings, user: Row, ttl: int, custom: Claims, issuedAt: int, random: seq<bv8>): Signing {
    var key := SigningKey(s);
    Signing(BaseClaims(s, user, ttl, issuedAt, random) + custom, key.secret, s.algorithm, Some(key.kid), map["typ" := "JWT"])
  }

  /** The clock readings and random draws one issueTokens call makes: its own time(),
      then time() and random_bytes(16) inside each of the two signJwt calls. */
  datatype Draws = Draws(now: int, accessAt: int, refreshAt: int, accessJti: RandomBytes, refreshJti: RandomBytes)

  /** What random_bytes(16) returns. */
  type RandomBytes = b: seq<bv8> | |b| == 16 witness seq(16, _ => 0)

  datatype TokenPair = TokenPair(access: string, refresh: string)

  /** signJwt called with the `purpose` and `nbf` overrides issueTokens passes. */
  function PurposeRequest(s: Settings, user: Row, ttl: int, purpose: string, nbf: int, issuedAt: int, random: seq<bv8>): Signing {
    SignJwtRequest(s, user, ttl, map["purpose" := Str(purpose), "nbf" := Int(nbf)], issuedAt, random)
  }

  function AccessRequest(s: Settings, user: Row, d: Draws): Signing {
    PurposeRequest(s, user, s.accessTtl, "access", d.now - 1, d.accessAt, d.accessJti)
  }

  function RefreshRequest(s: Settings, user: Row, d: Draws): Signing {
    PurposeRequest(s, user, s.refreshTtl, "refresh", d.now - 1, d.refreshAt, d.refreshJti)
  }

  /** What generateToken hands to the codec: {iat, exp, uid} merged under the custom claims,
      signed with the primary key and no kid header. */
  function GenerateRequest(s: Settings, user: Row, ttl: Option<int>, custom: Claims, now: int): Signing {
    var lifetime := if ttl.Some? then ttl.value else s.ttl;
    Signing(map["iat" := Int(now), "exp" := Int(now + lifetime), "uid" := Get(user, "id")] + custom,
            s.key, s.algorithm, None, map[])
  }

  function ResetRequest(s: Settings, user: Row, now: int): Signing {
    GenerateRequest(s, user, Some(PasswordResetTokenTtl), map["purpose" := Str("password_reset")], now)
  }

  /** The payload signJwt signs for a caller that overrides `purpose` and `nbf`: exactly
      the registered claims plus the purpose, with the overrides winning, `exp` = iat + ttl,
      `sub` the user id as a string and a 32-digit hex `jti`. */
  predicate SignedPayload(p: Claims, s: Settings, user: Row, purpose: string, nbf: int, issuedAt: int, ttl: int) {
    && p.Keys == {"jti", "iat", "nbf", "exp", "iss", "aud", "sub", "uid", "purpose"}
    && p["purpose"] == Str(purpose) && p["nbf"] == Int(nbf)
    && p["iat"] == Int(issuedAt) && p["exp"] == Int(issuedAt + ttl)
    && p["iss"] == Str(s.issuer) && p["aud"] == Str(s.audience)
    && p["uid"] == Get(user, "id") && p["sub"] == Str(ToPhpString(Get(user, "id")))
    && p["jti"].Str? && |p["jti"].s| == 32
  }

  /** What signJwt signs when its caller overrides `purpose` and `nbf`: the registered
      claims it sets itself, with the overrides winning (array_merge puts them last). */
  lemma {:induction false} SignedClaims(s: Settings, user: Row, ttl: int, purpose: string, nbf: int, issuedAt: int, random: seq<bv8>)
    requires |random| == 16
    ensures SignedPayload(PurposeRequest(s, user, ttl, purpose, nbf, issuedAt, random).payload,
                          s, user, purpose, nbf, issuedAt, ttl)
  {
    var base := BaseClaims(s, user, ttl, issuedAt, random);
    var custom := map["purpose" := Str(purpose), "nbf" := Int(nbf)];
    assert base.Keys == {"jti", "iat", "nbf", "exp", "iss", "aud", "sub", "uid"};
    assert custom.Keys == {"purpose", "nbf"};
    var p := base + custom;
    assert p.Keys == base.Keys + custom.Keys;
    assert p["purpose"] == Str(purpose) && p["nbf"] == Int(nbf);
    assert "jti" !in custom && "iat" !in custom && "exp" !in custom && "iss" !in custom;
    assert "aud" !in custom && "sub" !in custom && "uid" !in custom;
  }

  function IssueTokens(s: Settings, codec: Codec, user: Row, d: Draws): (r: TokenPair)
    ensures r.access == codec.encode(AccessRequest(s, user, d))
    ensures r.refresh == codec.encode(RefreshRequest(s, user, d))
  {
    TokenPair(codec.encode(AccessRequest(s, user, d)), codec.encode(RefreshRequest(s, user, d)))
  }

  /** What issueTokens signs: both tokens carry the registered claims signJwt sets, the
      purpose that tells them apart, `nbf` one second before issueTokens' own clock reading
      (the custom claim overrides signJwt's `nbf = iat`), and `exp` = iat + the purpose's
      lifetime. Both are signed with the current key and carry its kid. */
  lemma IssuedClaims(s: Settings, user: Row, d: Draws)
    ensures var a := AccessRequest(s, user, d).payload;
      && a["purpose"] == Str("access") && a["nbf"] == Int(d.now - 1)
      && a["iat"] == Int(d.accessAt) && a["exp"] == Int(d.accessAt + s.accessTtl)
    ensures var r := RefreshRequest(s, user, d).payload;
      && r["purpose"] == Str("refresh") && r["nbf"] == Int(d.now - 1)
      && r["iat"] == Int(d.refreshAt) && r["exp"] == Int(d.refreshAt + s.refreshTtl)
    ensures AccessRequest(s, user, d).kid == RefreshRequest(s, user, d).kid == Some(SigningKey(s).kid)
    ensures AccessRequest(s, user, d).secret == RefreshRequest(s, user, d).secret == SigningKey(s).secret
  {
    SignedClaims(s, user, s.accessTtl, "access", d.now - 1, d.accessAt, d.accessJti);
    SignedClaims(s, user, s.refreshTtl, "refresh", d.now - 1, d.refreshAt, d.refreshJti);
  }

  /** When issueTokens' clock reading is not later than signJwt's, `nbf` precedes `iat`. */
  lemma IssuedNotBeforePrecedesIssue(s: Settings, user: Row, d: Draws)
    requires d.now <= d.accessAt && d.now <= d.refreshAt
    ensures AccessRequest(s, user, d).payload["nbf"].i < AccessRequest(s, user, d).payload["iat"].i
    ensures RefreshRequest(s, user, d).payload["nbf"].i < RefreshRequest(s, user, d).payload["iat"].i
  {
  }

  /** The signing key: the current kid's secret when the ring holds that kid; otherwise the
      primary secret, still announced under the current kid (or "default" when none is set). */
  lemma SigningKeyChoice(s: Settings)
    ensures s.currentKid.None? ==> SigningKey(s).kid == DefaultKid
    ensures s.currentKid.Some? ==> SigningKey(s).kid == s.currentKid.value
    ensures SigningKey(s).kid in Kids(s.keys) ==> (SigningKey(s).kid, SigningKey(s).secret) in s.keys
    ensures SigningKey(s).kid !in Kids(s.keys) ==> SigningKey(s).secret == s.key
  {
    var kid := SigningKey(s).kid;
    if kid in Kids(s.keys) {
      var i :| 0 <= i < |s.keys| && s.keys[i].0 == kid;
    }
  }

  /** The password-reset token: {iat, exp = iat + 900, uid, purpose} and nothing else
      (no jti, iss, aud, nbf), signed with the primary secret and no kid header. */
  lemma ResetTokenClaims(s: Settings, user: Row, now: int)
    ensures var sg := ResetRequest(s, user, now);
      && sg.payload.Keys == {"iat", "exp", "uid", "purpose"}
      && sg.payload["exp"] == Int(now + 900) && sg.payload["iat"] == Int(now)
      && sg.payload["purpose"] == Str("password_reset") && sg.payload["uid"] == Get(user, "id")
      && sg.secret == s.key && sg.kid == None && sg.alg == s.algorithm
  {
  }

  // ----- decoding against the key ring -----

  /** The decision decodeWithAnyKey makes over keys[i..], given the last failure so far. */
  function TryKeys(codec: Codec, token: string, alg: string, keys: KeyList, last: Option<Exception>): Outcome<Claims>
    decreases |keys|
  {
    if keys == [] then Throws(if last.Some? then last.value else UnexpectedValue)
    else match codec.decode(token, keys[0].1, alg)
      case Returns(claims) => Returns(claims)
      case Throws(e) => if IsCritical(e) then Throws(e) else TryKeys(codec, token, alg, keys[1..], Some(e))
  }

  /** decodeWithAnyKey as a function: a configured algorithm outside the allow-list is
      refused before any key is tried; then the keys are tried in declaration order. */
  function DecodeAnyKey(s: Settings, codec: Codec, token: string): Outcome<Claims> {
    if s.algorithm !in s.allowedAlgorithms then Throws(InvalidArgument)
    else TryKeys(codec, token, s.algorithm, s.keys, None)
  }

  /** The loop of the source: return the first success, rethrow an expired, bad-signature
      or not-yet-valid failure at once, move past any other failure, and when the keys run
      out rethrow the last failure (UnexpectedValue when there were no keys). */
  method DecodeWithAnyKey(s: Settings, codec: Codec, token: string) returns (r: Outcome<Claims>)
    ensures r == DecodeAnyKey(s, codec, token)
  {
    var lastException: Option<Exception> := None;
    var alg := s.algorithm;
    if alg !in s.allowedAlgorithms {
      return Throws(InvalidArgument);
    }
    var i := 0;
    while i < |s.keys|
      invariant 0 <= i <= |s.keys|
      invariant TryKeys(codec, token, alg, s.keys[i..], lastException) == DecodeAnyKey(s, codec, token)
    {
      var secret := s.keys[i].1;
      var attempt := codec.decode(token, secret, alg);
      assert s.keys[i..][0].1 == secret && s.keys[i..][1..] == s.keys[i + 1..];
      match attempt {
        case Returns(claims) =>
          return Returns(claims);
        case Throws(e) =>
          lastException := Some(e);
          if IsCritical(e) {
            return Throws(e);
          }
      }
      i := i + 1;
    }
    if lastException.Some? {
      return Throws(lastException.value);
    }
    return Throws(UnexpectedValue);
  }

  /** A key decides the outcome when decoding with it succeeds or fails critically. */
  predicate Decisive(o: Outcome<Claims>) {
    o.Returns? || IsCritical(o.error)
  }

  /** The first deciding key decides: keys before it failed harmlessly, and keys after it
      are never consulted. */
  lemma {:induction false} FirstDecisiveKeyDecides(codec: Codec, token: string, alg: string, keys: KeyList, last: Option<Exception>, i: nat)
    requires i < |keys| && Decisive(codec.decode(token, keys[i].1, alg))
    requires forall j :: 0 <= j < i ==> !Decisive(codec.decode(token, keys[j].1, alg))
    ensures TryKeys(codec, token, alg, keys, last) == codec.decode(token, keys[i].1, alg)
    decreases i
  {
    if i > 0 {
      var e := codec.decode(token, keys[0].1, alg).error;
      assert !Decisive(codec.decode(token, keys[0].1, alg));
      forall j | 0 <= j < i - 1 ensures !Decisive(codec.decode(token, keys[1..][j].1, alg)) {
        assert keys[1..][j] == keys[j + 1];
      }
      FirstDecisiveKeyDecides(codec, token, alg, keys[1..], Some(e), i - 1);
    }
  }

  /** When no key decides, the failure of the last key is rethrown. */
  lemma {:induction false} NoDecisiveKeyRethrowsLast(codec: Codec, token: string, alg: string, keys: KeyList, last: Option<Exception>)
    requires |keys| > 0
    requires forall j :: 0 <= j < |keys| ==> !Decisive(codec.decode(token, keys[j].1, alg))
    ensures TryKeys(codec, token, alg, keys, last) == codec.decode(token, keys[|keys| - 1].1, alg)
    decreases |keys|
  {
    var e := codec.decode(token, keys[0].1, alg).error;
    assert !Decisive(codec.decode(token, keys[0].1, alg));
    if |keys| > 1 {
      forall j | 0 <= j < |keys| - 1 ensures !Decisive(codec.decode(token, keys[1..][j].1, alg)) {
        assert keys[1..][j] == keys[j + 1];
      }
      NoDecisiveKeyRethrowsLast(codec, token, alg, keys[1..], Some(e));
      assert keys[1..][|keys[1..]| - 1] == keys[|keys| - 1];
    }
  }

  /** The result never comes from a key that was not tried: two codecs that agree on the
      keys up to and including the first deciding one give the same result. */
  lemma {:induction false} LaterKeysNeverTried(c1: Codec, c2: Codec, token: string, alg: string, keys: KeyList, last: Option<Exception>, i: nat)
    requires i < |keys| && Decisive(c1.decode(token, keys[i].1, alg))
    requires forall j :: 0 <= j <= i ==> c1.decode(token, keys[j].1, alg) == c2.decode(token, keys[j].1, alg)
    requires forall j :: 0 <= j < i ==> !Decisive(c1.decode(token, keys[j].1, alg))
    ensures TryKeys(c1, token, alg, keys, last) == TryKeys(c2, token, alg, keys, last)
  {
    FirstDecisiveKeyDecides(c1, token, alg, keys, last, i);
    FirstDecisiveKeyDecides(c2, token, alg, keys, last, i);
  }

  // ----- verification -----

  /** The claim checks validateToken applies after a successful decode: issuer and audience
      when present, the purpose when one is required, and a uid. */
  predicate ClaimsAccepted(s: Settings, c: Claims, requiredPurpose: Option<string>) {
    && (IsSet(c, "iss") ==> c["iss"] == Str(s.issuer))
    && (IsSet(c, "aud") ==> c["aud"] == Str(s.audience))
    && (requiredPurpose.Some? ==> IsSet(c, "purpose") && c["purpose"] == Str(requiredPurpose.value))
    && IsSet(c, "uid")
  }

  /** validateToken: the user the token names, or null for an empty token, any exception
      while decoding, or a failed claim check. */
  function ValidateToken(s: Settings, codec: Codec, users: Users, token: Option<string>, requiredPurpose: Option<string>): (r: Option<User>)
    ensures r.Some? ==> token.Some? && StringTruthy(token.value)
    ensures r.Some? ==> var d := DecodeAnyKey(s, codec, token.value);
      d.Returns? && ClaimsAccepted(s, d.value, requiredPurpose) && r == users.byId(d.value["uid"])
  {
    if token.None? || !StringTruthy(token.value) then None
    else match DecodeAnyKey(s, codec, token.value)
      case Throws(_) => None
      case Returns(c) =>
        if IsSet(c, "iss") && c["iss"] != Str(s.issuer) then None
        else if IsSet(c, "aud") && c["aud"] != Str(s.audience) then None
        else if requiredPurpose.Some? && (!IsSet(c, "purpose") || c["purpose"] != Str(requiredPurpose.value)) then None
        else if !IsSet(c, "uid") then None
        else users.byId(c["uid"])
  }

  /** Conversely, a decoded token whose claims pass the checks resolves to the store's user. */
  lemma ValidateTokenAccepts(s: Settings, codec: Codec, users: Users, token: string, requiredPurpose: Option<string>)
    requires StringTruthy(token)
    requires DecodeAnyKey(s, codec, token).Returns?
    requires ClaimsAccepted(s, DecodeAnyKey(s, codec, token).value, requiredPurpose)
    ensures ValidateToken(s, codec, users, Some(token), requiredPurpose)
         == users.byId(DecodeAnyKey(s, codec, token).value["uid"])
  {
  }

  /** A token whose purpose differs from the required one is refused, whatever else holds;
      so a password-reset token is refused wherever an access or refresh token is needed. */
  lemma WrongPurposeRejected(s: Settings, codec: Codec, users: Users, token: string, required: string, c: Claims)
    requires DecodeAnyKey(s, codec, token) == Returns(c)
    requires c.Keys >= {"purpose"} && c["purpose"] != Str(required)
    ensures ValidateToken(s, codec, users, Some(token), Some(required)) == None
  {
  }

  // ----- codec assumptions for round trips -----

  /** What an HMAC JWS library answers when a token signed as `sg` is decoded with `secret`:
      the Key constructor refuses empty key material ("" or "0") with InvalidArgument, the
      signing secret gives back the payload, and any other secret fails the signature check. */
  function HmacDecode(sg: Signing, secret: string): Outcome<Claims> {
    if !StringTruthy(secret) then Throws(InvalidArgument)
    else if secret == sg.secret then Returns(sg.payload)
    else Throws(SignatureInvalid)
  }

  /** The codec behaves as an HMAC JWS codec on this signing at the current time: the token
      is a non-empty string and decoding it with any secret answers as `HmacDecode` says. */
  ghost predicate HonestFor(codec: Codec, sg: Signing) {
    && StringTruthy(codec.encode(sg))
    && (forall secret :: codec.decode(codec.encode(sg), secret, sg.alg) == HmacDecode(sg, secret))
  }

  /** Index i holds the first key of the ring whose key material is not empty. */
  predicate FirstUsableKey(keys: KeyList, i: nat) {
    && i < |keys| && StringTruthy(keys[i].1)
    && forall j :: 0 <= j < i ==> !StringTruthy(keys[j].1)
  }

  /** Under an HMAC codec, keys with empty material fail harmlessly with InvalidArgument and
      are skipped; the first key with usable material then decides the result. */
  lemma {:induction false} UsableKeyDecides(codec: Codec, sg: Signing, keys: KeyList, last: Option<Exception>, i: nat)
    requires HonestFor(codec, sg) && FirstUsableKey(keys, i)
    ensures TryKeys(codec, codec.encode(sg), sg.alg, keys, last) == HmacDecode(sg, keys[i].1)
  {
    var token := codec.encode(sg);
    forall j | 0 <= j < i ensures !Decisive(codec.decode(token, keys[j].1, sg.alg)) {
      assert codec.decode(token, keys[j].1, sg.alg) == Throws(InvalidArgument);
    }
    assert codec.decode(token, keys[i].1, sg.alg) == HmacDecode(sg, keys[i].1);
    FirstDecisiveKeyDecides(codec, token, sg.alg, keys, last, i);
  }

  /** A token signed with the ring's first usable secret, whose payload names a stored user
      and carries the configured issuer and audience, validates to that user for its own
      purpose and for no other. */
  lemma {:induction false} SignedTokenValidates(s: Settings, codec: Codec, users: Users, sg: Signing, user: User, purpose: string, other: string, i: nat)
    requires s.algorithm in s.allowedAlgorithms && sg.alg == s.algorithm
    requires FirstUsableKey(s.keys, i) && s.keys[i].1 == sg.secret
    requires HonestFor(codec, sg)
    requires sg.payload.Keys >= {"iss", "aud", "purpose", "uid"}
    requires sg.payload["iss"] == Str(s.issuer) && sg.payload["aud"] == Str(s.audience)
    requires sg.payload["purpose"] == Str(purpose) && purpose != other
    requires sg.payload["uid"] != Null && users.byId(sg.payload["uid"]) == Some(user)
    ensures ValidateToken(s, codec, users, Some(codec.encode(sg)), Some(purpose)) == Some(user)
    ensures ValidateToken(s, codec, users, Some(codec.encode(sg)), Some(other)) == None
  {
    var token := codec.encode(sg);
    UsableKeyDecides(codec, sg, s.keys, None, i);
    assert DecodeAnyKey(s, codec, token) == Returns(sg.payload);
    ValidateTokenAccepts(s, codec, users, token, Some(purpose));
    WrongPurposeRejected(s, codec, users, token, other, sg.payload);
  }

  /** Issue then verify: an access token issued for a stored user validates back to that
      user as an access token, and is refused as a refresh token (and the other way round),
      provided the signing secret is the first usable one of the ring. */
  lemma IssuedTokensRoundTrip(s: Settings, codec: Codec, users: Users, user: User, id: int, d: Draws, i: nat)
    requires s.algorithm in s.allowedAlgorithms
    requires FirstUsableKey(s.keys, i) && s.keys[i].1 == SigningKey(s).secret
    requires Get(user, "id") == Int(id) && users.byId(Int(id)) == Some(user)
    requires HonestFor(codec, AccessRequest(s, user, d)) && HonestFor(codec, RefreshRequest(s, user, d))
    ensures var pair := IssueTokens(s, codec, user, d);
      && ValidateToken(s, codec, users, Some(pair.access), Some("access")) == Some(user)
      && ValidateToken(s, codec, users, Some(pair.refresh), Some("refresh")) == Some(user)
      && ValidateToken(s, codec, users, Some(pair.access), Some("refresh")) == None
      && ValidateToken(s, codec, users, Some(pair.refresh), Some("access")) == None
  {
    PurposeTokenValidates(s, codec, users, user, id, s.accessTtl, "access", "refresh", d.now - 1, d.accessAt, d.accessJti, i);
    PurposeTokenValidates(s, codec, users, user, id, s.refreshTtl, "refresh", "access", d.now - 1, d.refreshAt, d.refreshJti, i);
  }

  /** One token of issueTokens, signed with the ring's first usable secret, validates back
      to its user for its own purpose and for no other. */
  lemma PurposeTokenValidates(s: Settings, codec: Codec, users: Users, user: User, id: int, ttl: int,
                              purpose: string, other: string, nbf: int, issuedAt: int, random: RandomBytes, i: nat)
    requires s.algorithm in s.allowedAlgorithms
    requires FirstUsableKey(s.keys, i) && s.keys[i].1 == SigningKey(s).secret
    requires Get(user, "id") == Int(id) && users.byId(Int(id)) == Some(user)
    requires purpose != other
    requires HonestFor(codec, PurposeRequest(s, user, ttl, purpose, nbf, issuedAt, random))
    ensures var token := codec.encode(PurposeRequest(s, user, ttl, purpose, nbf, issuedAt, random));
      && ValidateToken(s, codec, users, Some(token), Some(purpose)) == Some(user)
      && ValidateToken(s, codec, users, Some(token), Some(other)) == None
  {
    var sg := PurposeRequest(s, user, ttl, purpose, nbf, issuedAt, random);
    SignedClaims(s, user, ttl, purpose, nbf, issuedAt, random);
    assert sg.payload.Keys >= {"iss", "aud", "purpose", "uid"};
    SignedTokenValidates(s, codec, users, sg, user, purpose, other, i);
  }

  /** Under an HMAC codec only the first key of the ring with usable material can ever
      verify a token: decoding with any other non-empty secret raises SignatureInvalid,
      which decodeWithAnyKey rethrows at once. A token signed with a later key of the ring
      is therefore always refused. */
  lemma {:induction false} OnlyFirstUsableKeyVerifies(s: Settings, codec: Codec, users: Users, sg: Signing, purpose: Option<string>, i: nat)
    requires s.algorithm in s.allowedAlgorithms && sg.alg == s.algorithm
    requires FirstUsableKey(s.keys, i) && s.keys[i].1 != sg.secret
    requires HonestFor(codec, sg)
    ensures DecodeAnyKey(s, codec, codec.encode(sg)) == Throws(SignatureInvalid)
    ensures ValidateToken(s, codec, users, Some(codec.encode(sg)), purpose) == None
  {
    UsableKeyDecides(codec, sg, s.keys, None, i);
  }

  // ----- login, forgot password, reset password -----

  datatype LoginResult = LoginResult(accessToken: string, refreshToken: string, tokenType: string, expiresIn: int, user: User)

  /** attempt: false when the password check fails or the e-mail finds no user; otherwise
      a fresh token pair, the Bearer type, the access lifetime and the user. */
  function Attempt(s: Settings, codec: Codec, users: Users, email: string, password: string, d: Draws): (r: Option<LoginResult>)
    ensures r.Some? <==> users.verifyPassword(email, password) && users.byEmail(email).Some?
    ensures r.Some? ==> && r.value.user == users.byEmail(email).value
                        && r.value.tokenType == "Bearer" && r.value.expiresIn == s.accessTtl
                        && r.value.accessToken == codec.encode(AccessRequest(s, r.value.user, d))
                        && r.value.refreshToken == codec.encode(RefreshRequest(s, r.value.user, d))
  {
    if !users.verifyPassword(email, password) then None
    else match users.byEmail(email)
      case None => None
      case Some(user) =>
        var tokens := IssueTokens(s, codec, user, d);
        Some(LoginResult(tokens.access, tokens.refresh, "Bearer", s.accessTtl, user))
  }

  datatype ResetMail = ResetMail(recipient: User, token: string)

  /** The value handleForgotPasswordRequest returns and the e-mail it tries to send. */
  datatype ForgotResult = ForgotResult(returned: bool, mail: Option<ResetMail>)

  /** handleForgotPasswordRequest: always true; a reset mail is attempted exactly when the
      e-mail belongs to a user, carrying a reset token for that user. Whether sending
      succeeds does not matter. */
  function HandleForgotPasswordRequest(s: Settings, codec: Codec, users: Users, email: string, now: int): (r: ForgotResult)
    ensures r.returned
    ensures r.mail.Some? <==> users.byEmail(email).Some?
    ensures r.mail.Some? ==>
      && r.mail.value.recipient == users.byEmail(email).value
      && r.mail.value.token == codec.encode(ResetRequest(s, r.mail.value.recipient, now))
  {
    match users.byEmail(email)
    case Some(user) => ForgotResult(true, Some(ResetMail(user, codec.encode(ResetRequest(s, user, now)))))
    case None => ForgotResult(true, None)
  }

  /** The strict check of validatePasswordResetToken: decode with the primary key only,
      then reject in order an empty token (InvalidArgument), a purpose other than
      password_reset (UnexpectedValue), a missing uid (UnexpectedValue) and an unknown
      user (Runtime); decoding failures pass through as they were thrown. */
  function CheckResetToken(s: Settings, codec: Codec, users: Users, token: Option<string>): (r: Outcome<User>)
    ensures token.None? || !StringTruthy(token.value) ==> r == Throws(InvalidArgument)
    ensures token.Some? && StringTruthy(token.value) ==>
      var d := codec.decode(token.value, s.key, s.algorithm);
      && (d.Throws? ==> r == Throws(d.error))
      && (d.Returns? && !(IsSet(d.value, "purpose") && d.value["purpose"] == Str("password_reset")) ==>
            r == Throws(UnexpectedValue))
      && (d.Returns? && IsSet(d.value, "purpose") && d.value["purpose"] == Str("password_reset") ==>
            && (!IsSet(d.value, "uid") ==> r == Throws(UnexpectedValue))
            && (IsSet(d.value, "uid") && users.byId(d.value["uid"]).None? ==> r == Throws(Runtime))
            && (IsSet(d.value, "uid") && users.byId(d.value["uid"]).Some? ==> r == Returns(users.byId(d.value["uid"]).value)))
    ensures r.Returns? ==> var d := codec.decode(token.value, s.key, s.algorithm);
      && d.Returns? && IsSet(d.value, "purpose") && d.value["purpose"] == Str("password_reset")
      && IsSet(d.value, "uid") && users.byId(d.value["uid"]) == Some(r.value)
  {
    if token.None? || !StringTruthy(token.value) then Throws(InvalidArgument)
    else match codec.decode(token.value, s.key, s.algorithm)
      case Throws(e) => Throws(e)
      case Returns(c) =>
        if !IsSet(c, "purpose") || c["purpose"] != Str("password_reset") then Throws(UnexpectedValue)
        else if !IsSet(c, "uid") then Throws(UnexpectedValue)
        else match users.byId(c["uid"])
          case None => Throws(Runtime)
          case Some(user) => Returns(user)
  }

  /** validatePasswordResetToken in its two modes: strict rethrows the failure, silent
      turns every failure into null. */
  function ValidatePasswordResetToken(s: Settings, codec: Codec, users: Users, token: Option<string>, throwExceptions: bool): (r: Outcome<Option<User>>)
    ensures !throwExceptions ==> r.Returns?
    ensures r.Returns? && r.value.Some? ==> CheckResetToken(s, codec, users, token) == Returns(r.value.value)
  {
    match CheckResetToken(s, codec, users, token)
    case Returns(user) => Returns(Some(user))
    case Throws(e) => if throwExceptions then Throws(e) else Returns(None)
  }

  /** The two modes agree: silent mode returns null exactly when strict mode throws, and
      then strict mode throws the reason the check found. */
  lemma ResetModesAgree(s: Settings, codec: Codec, users: Users, token: Option<string>)
    ensures ValidatePasswordResetToken(s, codec, users, token, false) == Returns(None)
        <==> ValidatePasswordResetToken(s, codec, users, token, true).Throws?
    ensures ValidatePasswordResetToken(s, codec, users, token, true).Throws? ==>
        ValidatePasswordResetToken(s, codec, users, token, true).error == CheckResetToken(s, codec, users, token).error
    ensures CheckResetToken(s, codec, users, token).Returns? ==>
        ValidatePasswordResetToken(s, codec, users, token, false) == ValidatePasswordResetToken(s, codec, users, token, true)
  {
  }

  /** A reset token issued for a stored user verifies back to that user, unless the primary
      secret is "0", which the library refuses as empty key material. */
  lemma ResetTokenRoundTrip(s: Settings, codec: Codec, users: Users, user: User, id: int, now: int)
    requires Get(user, "id") == Int(id) && users.byId(Int(id)) == Some(user)
    requires HonestFor(codec, ResetRequest(s, user, now))
    ensures StringTruthy(s.key) ==>
      CheckResetToken(s, codec, users, Some(codec.encode(ResetRequest(s, user, now)))) == Returns(user)
    ensures !StringTruthy(s.key) ==>
      CheckResetToken(s, codec, users, Some(codec.encode(ResetRequest(s, user, now)))) == Throws(InvalidArgument)
  {
  }

  /** resetPassword: strict validation, then the result of updatePassword for the user's id. */
  function ResetPassword(s: Settings, codec: Codec, users: Users, token: string, newPassword: string,
                         updatePassword: (Value, string) -> bool): (r: Outcome<bool>)
    ensures CheckResetToken(s, codec, users, Some(token)).Throws? ==>
      r == Throws(CheckResetToken(s, codec, users, Some(token)).error)
    ensures CheckResetToken(s, codec, users, Some(token)).Returns? && IsSet(CheckResetToken(s, codec, users, Some(token)).value, "id") ==>
      r == Returns(updatePassword(CheckResetToken(s, codec, users, Some(token)).value["id"], newPassword))
    ensures CheckResetToken(s, codec, users, Some(token)).Returns? && !IsSet(CheckResetToken(s, codec, users, Some(token)).value, "id") ==>
      r == Returns(false)
  {
    match ValidatePasswordResetToken(s, codec, users, Some(token), true)
    case Throws(e) => Throws(e)
    case Returns(user) =>
      if user.Some? && IsSet(user.value, "id") then Returns(updatePassword(user.value["id"], newPassword))
      else Returns(false)
  }
}
