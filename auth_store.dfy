/** The browser-side auth store: the four token fields and the user, mirrored into
    localStorage (a string-to-string map here). Undefined fields are None. */
module AuthStore {
  import opened Text
  import opened Php

  /** A JavaScript number as the store holds it: an integer, or NaN. */
  datatype JsNumber = Num(n: int) | NaN

  /** Number(s) for a non-empty string: an optional minus sign and decimal digits give that
      integer; every other string gives NaN. */
  function ToNumber(s: string): (r: JsNumber)
    ensures r.Num? <==> ParseDecimal(s).Some?
  {
    match ParseDecimal(s)
    case Some(n) => Num(n)
    case None => NaN
  }

  /** String(x). */
  function NumberToString(x: JsNumber): (r: string)
    ensures r != ""
  {
    match x
    case Num(n) => IntToDecimal(n)
    case NaN => "NaN"
  }

  /** Storing a number and reading it back with Number() gives the same number. */
  lemma NumberRoundTrip(x: JsNumber)
    ensures ToNumber(NumberToString(x)) == x
  {
    if x.Num? {
      DecimalRoundTrip(x.n);
    }
  }

  /** JavaScript truthiness of an optional string and an optional number. */
  predicate TextTruthy(v: Option<string>) {
    v.Some? && v.value != ""
  }

  predicate NumberTruthy(v: Option<JsNumber>) {
    v.Some? && v.value.Num? && v.value.n != 0
  }

  /** The token fields of the store. */
  datatype Tokens = Tokens(accessToken: Option<string>, refreshToken: Option<string>,
                           tokenType: Option<string>, expiresIn: Option<JsNumber>)

  /** `!!(access_token && refresh_token && token_type && expires_in)`. */
  predicate LoggedIn(t: Tokens) {
    TextTruthy(t.accessToken) && TextTruthy(t.refreshToken) && TextTruthy(t.tokenType) && NumberTruthy(t.expiresIn)
  }

  /** `getItem(key) ?? ''`. */
  function ItemOrEmpty(storage: map<string, string>, key: string): string {
    if key in storage then storage[key] else ""
  }

  /** The token fields a store created over `storage` starts with: each string read back
      or '', and expires_in read back numerically when present and non-empty, else 0. */
  function Restore(storage: map<string, string>): (t: Tokens)
    ensures t.accessToken.Some? && t.refreshToken.Some? && t.tokenType.Some? && t.expiresIn.Some?
  {
    Tokens(Some(ItemOrEmpty(storage, "access_token")),
           Some(ItemOrEmpty(storage, "refresh_token")),
           Some(ItemOrEmpty(storage, "token_type")),
           Some(if ItemOrEmpty(storage, "expires_in") != "" then ToNumber(storage["expires_in"]) else Num(0)))
  }

  /** Undefined fields read as the defaults a reload would give them. */
  function Normalize(t: Tokens): Tokens {
    Tokens(Some(if t.accessToken.Some? then t.accessToken.value else ""),
           Some(if t.refreshToken.Some? then t.refreshToken.value else ""),
           Some(if t.tokenType.Some? then t.tokenType.value else ""),
           Some(if t.expiresIn.Some? then t.expiresIn.value else Num(0)))
  }

  /** Normalizing never changes whether the store counts as logged in. */
  lemma NormalizeKeepsLoggedIn(t: Tokens)
    ensures LoggedIn(Normalize(t)) == LoggedIn(t)
  {
  }

  class Store {
    var user: Option<Row>
    var accessToken: Option<string>
    var refreshToken: Option<string>
    var tokenType: Option<string>
    var expiresIn: Option<JsNumber>
    var storage: map<string, string>

    function Fields(): Tokens
      reads this
    {
      Tokens(accessToken, refreshToken, tokenType, expiresIn)
    }

    /** Storage mirrors the fields: reloading the page from `storage` gives back the
        fields, with undefined ones as their defaults. */
    predicate Persisted()
      reads this
    {
      Restore(storage) == Normalize(Fields())
    }

    /** The initial state: no user, token fields read from storage. */
    constructor (storage: map<string, string>)
      ensures this.storage == storage && user == None
      ensures Fields() == Restore(storage)
      ensures Persisted()
    {
      this.storage := storage;
      user := None;
      accessToken := Some(ItemOrEmpty(storage, "access_token"));
      refreshToken := Some(ItemOrEmpty(storage, "refresh_token"));
      tokenType := Some(ItemOrEmpty(storage, "token_type"));
      expiresIn := Some(if ItemOrEmpty(storage, "expires_in") != "" then ToNumber(storage["expires_in"]) else Num(0));
    }

    method SetAccessToken(value: string)
      modifies this
      ensures accessToken == Some(value) && storage == old(storage)["access_token" := value]
      ensures user == old(user) && refreshToken == old(refreshToken) && tokenType == old(tokenType) && expiresIn == old(expiresIn)
      ensures old(Persisted()) ==> Persisted()
    {
      accessToken := Some(value);
      storage := storage["access_token" := value];
    }

    method SetRefreshToken(value: string)
      modifies this
      ensures refreshToken == Some(value) && storage == old(storage)["refresh_token" := value]
      ensures user == old(user) && accessToken == old(accessToken) && tokenType == old(tokenType) && expiresIn == old(expiresIn)
      ensures old(Persisted()) ==> Persisted()
    {
      refreshToken := Some(value);
      storage := storage["refresh_token" := value];
    }

    method SetTokenType(value: string)
      modifies this
      ensures tokenType == Some(value) && storage == old(storage)["token_type" := value]
      ensures user == old(user) && accessToken == old(accessToken) && refreshToken == old(refreshToken) && expiresIn == old(expiresIn)
      ensures old(Persisted()) ==> Persisted()
    {
      tokenType := Some(value);
      storage := storage["token_type" := value];
    }

    /** The number is stored as its string form, which reads back as the same number. */
    method SetExpiresIn(value: JsNumber)
      modifies this
      ensures expiresIn == Some(value) && storage == old(storage)["expires_in" := NumberToString(value)]
      ensures user == old(user) && accessToken == old(accessToken) && refreshToken == old(refreshToken) && tokenType == old(tokenType)
      ensures old(Persisted()) ==> Persisted()
    {
      expiresIn := Some(value);
      storage := storage["expires_in" := NumberToString(value)];
      NumberRoundTrip(value);
    }

    /** setUser changes only the user; storage is not written. */
    method SetUser(value: Row)
      modifies this`user
      ensures user == Some(value)
    {
      user := Some(value);
    }

    /** logout: every field undefined and storage emptied; the store is then logged out,
        now and after a reload. */
    method Logout()
      modifies this
      ensures user == None && Fields() == Tokens(None, None, None, None) && storage == map[]
      ensures !IsLoggedIn() && !LoggedIn(Restore(storage))
      ensures Persisted()
    {
      user := None;
      accessToken := None;
      refreshToken := None;
      tokenType := None;
      expiresIn := None;
      storage := map[];
    }

    /** isLoggedIn: all four token fields truthy, so an expires_in of 0 (or NaN) means
        logged out. */
    predicate IsLoggedIn()
      reads this
    {
      LoggedIn(Fields())
    }
  }

  /** While storage mirrors the fields, a reload agrees with the live store on whether the
      user is logged in. */
  lemma ReloadKeepsLogin(store: Store)
    requires store.Persisted()
    ensures store.IsLoggedIn() == LoggedIn(Restore(store.storage))
  {
    NormalizeKeepsLoggedIn(store.Fields());
  }

  /** Signing in writes all four token fields; with non-empty strings and a non-zero
      lifetime the store is then logged in, and stays so after a reload. */
  method SignIn(store: Store, access: string, refresh: string, tokenType: string, expiresIn: int)
    requires store.Persisted()
    requires access != "" && refresh != "" && tokenType != "" && expiresIn != 0
    modifies store
    ensures store.IsLoggedIn() && LoggedIn(Restore(store.storage))
  {
    store.SetAccessToken(access);
    store.SetRefreshToken(refresh);
    store.SetTokenType(tokenType);
    store.SetExpiresIn(Num(expiresIn));
    ReloadKeepsLogin(store);
  }
}
