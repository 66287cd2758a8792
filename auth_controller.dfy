/** The authentication endpoints: body validation, the call into the authentication
    service, and the mapping of its results and exceptions to HTTP responses. Each action
    is a function of the decoded JSON body (and of the service's collaborators). */
module AuthController {
  import opened Text
  import opened Php
  import opened JwtConfig
  import opened AuthService
  import opened Http

  // ----- body validation -----

  /** The validation rules the actions use, with the framework's strict rule semantics. */
  datatype Rule = Required | IsString | ValidEmail | MinLength(n: nat) | Matches(other: string)

  /** The key the framework's error message is looked up by. */
  function RuleName(rule: Rule): string {
    match rule
    case Required => "required"
    case IsString => "string"
    case ValidEmail => "valid_email"
    case MinLength(_) => "min_length"
    case Matches(_) => "matches"
  }

  /** The characters PHP's trim() removes: space, tab, line feed, carriage return, NUL and
      vertical tab. */
  predicate TrimmedChar(c: char) {
    c == ' ' || c == '\t' || c == '\n' || c == '\r' || c as int == 0 || c as int == 11
  }

  /** `trim($s) !== ''`. */
  predicate NonBlank(s: string) {
    exists i :: 0 <= i < |s| && !TrimmedChar(s[i])
  }

  /** One rule on one field's value; `data` is the whole body, for `matches`. */
  predicate Passes(rule: Rule, v: Value, data: Row, validEmail: string -> bool) {
    match rule
    case Required =>
      (match v
       case Null => false
       case Arr(xs) => xs != []
       case _ => NonBlank(ToPhpString(v)))
    case IsString => v.Str?
    case ValidEmail => v.Str? && validEmail(v.s)
    case MinLength(n) => (v.Str? || v.Int? || v.Null?) && |ToPhpString(v)| >= n
    case Matches(other) => other in data && v == data[other]
  }

  /** The rules of one field are applied in order and stop at the first that fails. */
  function FirstFailure(rules: seq<Rule>, v: Value, data: Row, validEmail: string -> bool): (r: Option<Rule>)
    ensures r.None? <==> forall i :: 0 <= i < |rules| ==> Passes(rules[i], v, data, validEmail)
    ensures r.Some? ==> r.value in rules && !Passes(r.value, v, data, validEmail)
  {
    if rules == [] then None
    else if !Passes(rules[0], v, data, validEmail) then Some(rules[0])
    else
      assert forall i :: 0 < i < |rules| ==> rules[i] == rules[1..][i - 1];
      FirstFailure(rules[1..], v, data, validEmail)
  }

  /** A field name with its rules. */
  type Field = (string, seq<Rule>)

  /** Every field passes all of its rules. */
  predicate Valid(fields: seq<Field>, data: Row, validEmail: string -> bool) {
    forall i :: 0 <= i < |fields| ==> FirstFailure(fields[i].1, Get(data, fields[i].0), data, validEmail).None?
  }

  /** The validator's error list: for each field whose rules fail, the first failing rule. */
  function Validate(fields: seq<Field>, data: Row, validEmail: string -> bool): (errors: map<string, string>)
    ensures errors == map[] <==> Valid(fields, data, validEmail)
    ensures forall k :: k in errors ==> exists i :: 0 <= i < |fields| && fields[i].0 == k
  {
    if fields == [] then map[]
    else
      var rest := Validate(fields[1..], data, validEmail);
      assert Valid(fields, data, validEmail) <==>
             FirstFailure(fields[0].1, Get(data, fields[0].0), data, validEmail).None? && Valid(fields[1..], data, validEmail) by {
        if FirstFailure(fields[0].1, Get(data, fields[0].0), data, validEmail).None? && Valid(fields[1..], data, validEmail) {
          forall i | 0 <= i < |fields| ensures FirstFailure(fields[i].1, Get(data, fields[i].0), data, validEmail).None? {
            if i > 0 { assert fields[i] == fields[1..][i - 1]; }
          }
        }
      }
      match FirstFailure(fields[0].1, Get(data, fields[0].0), data, validEmail)
      case Some(rule) =>
        assert fields[0].0 in rest[fields[0].0 := RuleName(rule)];
        rest[fields[0].0 := RuleName(rule)]
      case None => rest
  }

  /** A body value handed to a `string` parameter without strict types: scalars are
      converted, while null and arrays raise a TypeError. */
  function StringArgument(v: Value): (r: Option<string>)
    ensures r.Some? <==> v.Str? || v.Int? || v.Bool?
    ensures v.Str? ==> r == Some(v.s)
  {
    match v
    case Null => None
    case Arr(_) => None
    case _ => Some(ToPhpString(v))
  }

  // ----- login -----

  const LoginRules: seq<Field> := [("email", [Required, ValidEmail]), ("password", [Required])]

  /** login: 400 with the validator's errors, 401 "Invalid credentials" when attempt fails,
      otherwise 200 with the token pair, Bearer type, access lifetime and the user. */
  function Login(s: Settings, codec: Codec, users: Users, validEmail: string -> bool, data: Row, d: Draws): (r: Response)
    ensures !Valid(LoginRules, data, validEmail) ==> r == FailValidationErrors(Validate(LoginRules, data, validEmail))
    ensures Valid(LoginRules, data, validEmail) && Get(data, "email").Str? && StringArgument(Get(data, "password")).Some? ==>
      var email := Get(data, "email").s;
      var password := StringArgument(Get(data, "password")).value;
      && (r.code == 200 <==> users.verifyPassword(email, password) && users.byEmail(email).Some?)
      && (r.code != 200 ==> r == FailUnauthorized("Invalid credentials"))
      && (r.code == 200 ==> var user := users.byEmail(email).value;
            r.body == Tokens(codec.encode(AccessRequest(s, user, d)), codec.encode(RefreshRequest(s, user, d)),
                             "Bearer", s.accessTtl, Some(user)))
  {
    var errors := Validate(LoginRules, data, validEmail);
    if errors != map[] then FailValidationErrors(errors)
    else match (Get(data, "email"), StringArgument(Get(data, "password")))
      case (Str(email), Some(password)) =>
        (match Attempt(s, codec, users, email, password, d)
         case None => FailUnauthorized("Invalid credentials")
         case Some(res) => Respond(Tokens(res.accessToken, res.refreshToken, res.tokenType, res.expiresIn, Some(res.user))))
      case _ => Response(500, Unhandled)
  }

  /** A body that passes the login rules has a string e-mail. */
  lemma LoginEmailIsString(data: Row, validEmail: string -> bool)
    requires Valid(LoginRules, data, validEmail)
    ensures Get(data, "email").Str? && validEmail(Get(data, "email").s)
    ensures Get(data, "password") != Null
  {
    assert FirstFailure(LoginRules[0].1, Get(data, "email"), data, validEmail).None?;
    assert Passes(LoginRules[0].1[1], Get(data, "email"), data, validEmail);
    assert FirstFailure(LoginRules[1].1, Get(data, "password"), data, validEmail).None?;
    assert Passes(LoginRules[1].1[0], Get(data, "password"), data, validEmail);
  }

  /** Login does not tell an unknown e-mail from a wrong password: with the same body, any
      two user stores under which the credentials fail give the identical response. */
  lemma LoginHidesWhichCheckFailed(s: Settings, codec: Codec, users1: Users, users2: Users,
                                   validEmail: string -> bool, data: Row, d: Draws)
    requires Valid(LoginRules, data, validEmail) && StringArgument(Get(data, "password")).Some?
    requires Get(data, "email").Str?
    requires var email := Get(data, "email").s; var password := StringArgument(Get(data, "password")).value;
      && !(users1.verifyPassword(email, password) && users1.byEmail(email).Some?)
      && !(users2.verifyPassword(email, password) && users2.byEmail(email).Some?)
    ensures Login(s, codec, users1, validEmail, data, d) == Login(s, codec, users2, validEmail, data, d)
         == FailUnauthorized("Invalid credentials")
  {
    LoginEmailIsString(data, validEmail);
  }

  // ----- forgot password -----

  const ForgotRules: seq<Field> := [("email", [Required, ValidEmail])]

  const ForgotMessage: string :=
    "If your email address is in our system, you will receive a password reset link shortly."

  /** forgotPassword: 400 with the validator's errors, otherwise the generic 200 message;
      the reset mail (second component) goes out exactly when the e-mail names a user, and
      then to that user. */
  function ForgotPassword(s: Settings, codec: Codec, users: Users, validEmail: string -> bool, data: Row, now: int)
    : (r: (Response, Option<ResetMail>))
    ensures !Valid(ForgotRules, data, validEmail) ==> r == (FailValidationErrors(Validate(ForgotRules, data, validEmail)), None)
    ensures Valid(ForgotRules, data, validEmail) ==> r.0 == Respond(Message(ForgotMessage))
    ensures Valid(ForgotRules, data, validEmail) && Get(data, "email").Str? ==>
      && (r.1.Some? <==> users.byEmail(Get(data, "email").s).Some?)
      && (r.1.Some? ==> r.1.value.recipient == users.byEmail(Get(data, "email").s).value)
      && (r.1.Some? ==> r.1.value.token == codec.encode(ResetRequest(s, r.1.value.recipient, now)))
  {
    var errors := Validate(ForgotRules, data, validEmail);
    if errors != map[] then (FailValidationErrors(errors), None)
    else match Get(data, "email")
      case Str(email) => (Respond(Message(ForgotMessage)), HandleForgotPasswordRequest(s, codec, users, email, now).mail)
      case _ => (Respond(Message(ForgotMessage)), None)
  }

  /** The response never depends on the user store, so it cannot reveal whether an
      account exists. */
  lemma ForgotPasswordHidesAccounts(s: Settings, codec: Codec, users1: Users, users2: Users,
                                    validEmail: string -> bool, data: Row, now: int)
    ensures ForgotPassword(s, codec, users1, validEmail, data, now).0 == ForgotPassword(s, codec, users2, validEmail, data, now).0
  {
  }

  // ----- verify reset token -----

  const TokenRules: seq<Field> := [("token", [Required, IsString])]

  /** verifyResetToken: 400 with the validator's errors; otherwise 200 "Token is valid."
      when the strict reset-token check succeeds, and one uniform 500 for every reason it
      fails. */
  function VerifyResetToken(s: Settings, codec: Codec, users: Users, validEmail: string -> bool, data: Row): (r: Response)
    ensures !Valid(TokenRules, data, validEmail) ==> r == FailValidationErrors(Validate(TokenRules, data, validEmail))
    ensures Valid(TokenRules, data, validEmail) && Get(data, "token").Str? ==>
      && (r == Respond(Message("Token is valid.")) <==> CheckResetToken(s, codec, users, Some(Get(data, "token").s)).Returns?)
      && (CheckResetToken(s, codec, users, Some(Get(data, "token").s)).Throws? ==>
            r == FailServerError("An unexpected error occurred while verifying the token."))
  {
    var errors := Validate(TokenRules, data, validEmail);
    if errors != map[] then FailValidationErrors(errors)
    else match Get(data, "token")
      case Str(token) =>
        (match ValidatePasswordResetToken(s, codec, users, Some(token), true)
         case Returns(_) => Respond(Message("Token is valid."))
         case Throws(_) => FailServerError("An unexpected error occurred while verifying the token."))
      case _ => Response(500, Unhandled)
  }

  /** A body that passes the token rules has a string token. */
  lemma TokenIsString(data: Row, validEmail: string -> bool)
    requires Valid(TokenRules, data, validEmail)
    ensures Get(data, "token").Str?
  {
    assert FirstFailure(TokenRules[0].1, Get(data, "token"), data, validEmail).None?;
    assert Passes(TokenRules[0].1[1], Get(data, "token"), data, validEmail);
  }

  // ----- reset password -----

  const ResetRules: seq<Field> :=
    [("token", [Required, IsString]),
     ("password", [Required, MinLength(8), Matches("password_confirm")]),
     ("password_confirm", [Required])]

  const TokenNotProvided: string := "Token not provided."
  const UserNotFound: string := "User not found for token."
  const ResetDone: string := "Password has been updated successfully."
  const ResetNotSaved: string := "Could not update password at this time. Please try again."
  const ResetExpired: string := "Password reset token has expired."
  const ResetBadSignature: string := "Invalid password reset token signature."
  const ResetNotYetValid: string := "Password reset token not yet valid."
  const ResetBadContent: string := "Invalid password reset token content."
  const ResetUnexpected: string := "An unexpected error occurred. Please try again later."

  /** The catch chain of resetPassword, in its order, over the exception hierarchy; and
      the two results of the service call. The message of a plain RuntimeException is the
      one the service throws (the user named by the token is gone). */
  function ResetResponse(o: Outcome<bool>): (r: Response)
    ensures r.code == 200 <==> o == Returns(true)
    ensures r.code == 400 <==> o == Throws(InvalidArgument)
    ensures r.code == 401 <==> o.Throws? && IsUnexpectedValue(o.error)
    ensures r.code == 500 <==> o == Returns(false) || (o.Throws? && !o.error.InvalidArgument? && !IsUnexpectedValue(o.error))
    ensures o == Returns(true) ==> r.body == Message(ResetDone)
    ensures o == Returns(false) ==> r == FailServerError(ResetNotSaved)
    ensures o == Throws(InvalidArgument) ==> r == FailValidationErrors(map["token" := TokenNotProvided])
    ensures o == Throws(Expired) ==> r == FailUnauthorized(ResetExpired)
    ensures o == Throws(SignatureInvalid) ==> r == FailUnauthorized(ResetBadSignature)
    ensures o == Throws(BeforeValid) ==> r == FailUnauthorized(ResetNotYetValid)
    ensures o == Throws(UnexpectedValue) ==> r == FailUnauthorized(ResetBadContent)
    ensures o == Throws(Runtime) ==> r == Fail(UserNotFound, 500)
    ensures o.Throws? && !o.error.InvalidArgument? && !IsRuntime(o.error) ==>
      r == FailServerError(ResetUnexpected)
  {
    match o
    case Returns(success) => if success then Respond(Message(ResetDone)) else FailServerError(ResetNotSaved)
    case Throws(e) =>
      if e.InvalidArgument? then FailValidationErrors(map["token" := TokenNotProvided])
      else if e.Expired? then FailUnauthorized(ResetExpired)
      else if e.SignatureInvalid? then FailUnauthorized(ResetBadSignature)
      else if e.BeforeValid? then FailUnauthorized(ResetNotYetValid)
      else if IsUnexpectedValue(e) then FailUnauthorized(ResetBadContent)
      else if IsRuntime(e) then Fail(UserNotFound, 500)
      else FailServerError(ResetUnexpected)
  }

  /** resetPassword: 400 with the validator's errors; otherwise the service's result,
      answered through the catch chain. */
  function ResetPassword(s: Settings, codec: Codec, users: Users, validEmail: string -> bool, data: Row,
                         updatePassword: (Value, string) -> bool): (r: Response)
    ensures !Valid(ResetRules, data, validEmail) ==> r == FailValidationErrors(Validate(ResetRules, data, validEmail))
    ensures Valid(ResetRules, data, validEmail) && Get(data, "token").Str? && StringArgument(Get(data, "password")).Some? ==>
      r == ResetResponse(AuthService.ResetPassword(s, codec, users, Get(data, "token").s,
                                                   StringArgument(Get(data, "password")).value, updatePassword))
  {
    var errors := Validate(ResetRules, data, validEmail);
    if errors != map[] then FailValidationErrors(errors)
    else match (Get(data, "token"), StringArgument(Get(data, "password")))
      case (Str(token), Some(password)) =>
        ResetResponse(AuthService.ResetPassword(s, codec, users, token, password, updatePassword))
      case _ => Response(500, Unhandled)
  }

  /** A body that passes the reset rules has a string token and a password that is a
      string or an integer. */
  lemma ResetBodyShape(data: Row, validEmail: string -> bool)
    requires Valid(ResetRules, data, validEmail)
    ensures Get(data, "token").Str?
    ensures Get(data, "password").Str? || Get(data, "password").Int?
  {
    assert FirstFailure(ResetRules[0].1, Get(data, "token"), data, validEmail).None?;
    assert Passes(ResetRules[0].1[1], Get(data, "token"), data, validEmail);
    assert FirstFailure(ResetRules[1].1, Get(data, "password"), data, validEmail).None?;
    assert Passes(ResetRules[1].1[0], Get(data, "password"), data, validEmail);
    assert Passes(ResetRules[1].1[1], Get(data, "password"), data, validEmail);
  }

  /** What a valid reset request gets, by cause: 200 exactly when the token names a user
      with an id and the update succeeds; 400 for a falsy token; 401 for an expired, badly
      signed, not-yet-valid or wrong-content token; 500 with the service's message when the
      user named by the token is gone. */
  lemma ResetPasswordAnswers(s: Settings, codec: Codec, users: Users, validEmail: string -> bool, data: Row,
                             updatePassword: (Value, string) -> bool)
    requires Valid(ResetRules, data, validEmail)
    ensures Get(data, "token").Str? && StringArgument(Get(data, "password")).Some?
    ensures var check := CheckResetToken(s, codec, users, Some(Get(data, "token").s));
      var r := ResetPassword(s, codec, users, validEmail, data, updatePassword);
      && (r.code == 200 <==> check.Returns? && IsSet(check.value, "id")
                             && updatePassword(check.value["id"], StringArgument(Get(data, "password")).value))
      && (r.code == 400 <==> check == Throws(InvalidArgument))
      && (r.code == 401 <==> check.Throws? && IsUnexpectedValue(check.error))
      && (check == Throws(Runtime) ==> r == Fail(UserNotFound, 500))
  {
    ResetBodyShape(data, validEmail);
  }

  /** The token "0" passes `required|string` (it is not blank) and yet the service treats
      it as missing: verifyResetToken answers its uniform 500 and resetPassword answers 400
      with the service's message. */
  lemma ZeroTokenPassesValidation(s: Settings, codec: Codec, users: Users, validEmail: string -> bool,
                                  updatePassword: (Value, string) -> bool)
    ensures Valid(TokenRules, map["token" := Str("0")], validEmail)
    ensures CheckResetToken(s, codec, users, Some("0")) == Throws(InvalidArgument)
    ensures VerifyResetToken(s, codec, users, validEmail, map["token" := Str("0")])
         == FailServerError("An unexpected error occurred while verifying the token.")
    ensures var data := map["token" := Str("0"), "password" := Str("password"), "password_confirm" := Str("password")];
      && Valid(ResetRules, data, validEmail)
      && ResetPassword(s, codec, users, validEmail, data, updatePassword) == FailValidationErrors(map["token" := TokenNotProvided])
  {
    assert !TrimmedChar("0"[0]);
    var data := map["token" := Str("0")];
    assert Passes(Required, Str("0"), data, validEmail);
    assert FirstFailure([Required, IsString], Get(data, "token"), data, validEmail).None?;
    ZeroTokenResetBody(validEmail);
  }

  /** The reset body with token "0" and a matching eight-character password passes the
      reset rules. */
  lemma ZeroTokenResetBody(validEmail: string -> bool)
    ensures Valid(ResetRules, map["token" := Str("0"), "password" := Str("password"), "password_confirm" := Str("password")], validEmail)
  {
    assert !TrimmedChar("0"[0]);
    assert !TrimmedChar("password"[0]);
    var reset := map["token" := Str("0"), "password" := Str("password"), "password_confirm" := Str("password")];
    assert Passes(Required, Str("0"), reset, validEmail);
    assert Passes(Required, Str("password"), reset, validEmail);
    assert FirstFailure(ResetRules[0].1, Get(reset, "token"), reset, validEmail).None?;
    assert FirstFailure(ResetRules[1].1, Get(reset, "password"), reset, validEmail).None?;
    assert FirstFailure(ResetRules[2].1, Get(reset, "password_confirm"), reset, validEmail).None?;
  }

  // ----- refresh token, logout, me -----

  const RefreshRequired: string := "Refresh token is required."
  const RefreshRefused: string := "Invalid or expired refresh token."

  /** refreshToken: 400 unless refresh_token is a string; 401 unless it validates as a
      refresh token; otherwise a freshly issued pair for its user, the Bearer type and the
      access lifetime. */
  function RefreshToken(s: Settings, codec: Codec, users: Users, data: Row, d: Draws): (r: Response)
    ensures !(IsSet(data, "refresh_token") && data["refresh_token"].Str?) ==>
      r == FailValidationErrors(map["refresh_token" := RefreshRequired])
    ensures IsSet(data, "refresh_token") && data["refresh_token"].Str? ==>
      var user := ValidateToken(s, codec, users, Some(data["refresh_token"].s), Some("refresh"));
      && (user.None? ==> r == FailUnauthorized(RefreshRefused))
      && (user.Some? ==> r.code == 200 && r.body.Tokens? && r.body.user.None?
                         && r.body.accessToken == codec.encode(AccessRequest(s, user.value, d))
                         && r.body.refreshToken == codec.encode(RefreshRequest(s, user.value, d))
                         && r.body.tokenType == "Bearer" && r.body.expiresIn == s.accessTtl)
  {
    if !IsSet(data, "refresh_token") || !data["refresh_token"].Str? then
      FailValidationErrors(map["refresh_token" := RefreshRequired])
    else match ValidateToken(s, codec, users, Some(data["refresh_token"].s), Some("refresh"))
      case None => FailUnauthorized(RefreshRefused)
      case Some(user) =>
        var tokens := IssueTokens(s, codec, user, d);
        Respond(Tokens(tokens.access, tokens.refresh, "Bearer", s.accessTtl, None))
  }

  /** Every refused refresh gets the same 401: the expired, bad-signature and not-yet-valid
      answers of the catch chain are never produced, because validateToken turns every
      decoding exception into null. */
  lemma RefreshFailuresAreUniform(s: Settings, codec: Codec, users: Users, data: Row, d: Draws)
    ensures var r := RefreshToken(s, codec, users, data, d);
      && r.code in {200, 400, 401}
      && (r.code == 401 ==> r == FailUnauthorized(RefreshRefused))
      && (r.code == 400 ==> r == FailValidationErrors(map["refresh_token" := RefreshRequired]))
  {
  }

  /** Log in, then refresh with the refresh token login handed out: a new pair for the
      same user. Login's access token is refused by the refresh action. */
  lemma LoginThenRefresh(s: Settings, codec: Codec, users: Users, validEmail: string -> bool, data: Row,
                         user: User, id: int, d: Draws, d2: Draws, i: nat)
    requires Valid(LoginRules, data, validEmail) && StringArgument(Get(data, "password")).Some?
    requires Get(data, "email").Str? && users.byEmail(Get(data, "email").s) == Some(user)
    requires users.verifyPassword(Get(data, "email").s, StringArgument(Get(data, "password")).value)
    requires s.algorithm in s.allowedAlgorithms
    requires FirstUsableKey(s.keys, i) && s.keys[i].1 == SigningKey(s).secret
    requires Get(user, "id") == Int(id) && users.byId(Int(id)) == Some(user)
    requires HonestFor(codec, AccessRequest(s, user, d)) && HonestFor(codec, RefreshRequest(s, user, d))
    ensures var login := Login(s, codec, users, validEmail, data, d);
      && login.code == 200 && login.body.Tokens?
      && var again := RefreshToken(s, codec, users, map["refresh_token" := Str(login.body.refreshToken)], d2);
      && again.code == 200
      && again.body.accessToken == codec.encode(AccessRequest(s, user, d2))
      && again.body.refreshToken == codec.encode(RefreshRequest(s, user, d2))
      && RefreshToken(s, codec, users, map["refresh_token" := Str(login.body.accessToken)], d2)
         == FailUnauthorized(RefreshRefused)
  {
    IssuedTokensRoundTrip(s, codec, users, user, id, d, i);
    var pair := IssueTokens(s, codec, user, d);
    var login := Login(s, codec, users, validEmail, data, d);
    assert login.body.refreshToken == pair.refresh && login.body.accessToken == pair.access;
    var good: Row := map["refresh_token" := Str(pair.refresh)];
    var bad: Row := map["refresh_token" := Str(pair.access)];
    assert IsSet(good, "refresh_token") && good["refresh_token"].s == pair.refresh;
    assert IsSet(bad, "refresh_token") && bad["refresh_token"].s == pair.access;
  }

  /** logout: nothing is revoked; the answer is a fixed 200 message. */
  function Logout(): (r: Response)
    ensures r.code == 200 && r.body == Message("Logged out successfully.")
  {
    Respond(Message("Logged out successfully."))
  }

  /** me: 200 with the user the JWT filter attached to this request; without one the
      action hands null to respond(), which the framework answers with 404. */
  function Me(request: Request): (r: Response)
    reads request
    ensures request.authenticatedUser.Some? ==> r.code == 200 && r.body == UserData(request.authenticatedUser.value)
    ensures request.authenticatedUser.None? ==> r.code == 404 && r.body == Empty
  {
    match request.authenticatedUser
    case Some(user) => Respond(UserData(user))
    case None => Response(404, Empty)
  }
}
