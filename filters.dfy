/** The request filters around the API: the JWT filter that authenticates a bearer access
    token and attaches the user to the request, the admin-only role gate, and the
    Accept-header gate. */
module Filters {
  import opened Text
  import opened Php
  import opened JwtConfig
  import opened AuthService
  import opened Http

  /** What a `before` filter hands back: the request to go on with, or a response that
      ends the request. */
  datatype FilterResult = Proceed(request: Request) | Halt(response: Response)

  const Unauthorized: Response := FailUnauthorized("Unauthorized")

  // ----- JwtAuthFilter -----

  /** The word "Bearer", in any letter case, at index i. */
  predicate BearerAt(s: string, i: nat) {
    i + 6 <= |s| && ToLower(s[i..i + 6]) == "bearer"
  }

  /** No line feed in s[from..|s| - 1] (a final line feed is allowed). */
  predicate NoInnerLineFeed(s: string, from: nat) {
    forall q :: from <= q < |s| - 1 ==> s[q] != '\n'
  }

  /** The pattern `/Bearer\s+(.*)$/i` tried at index i, giving its capture group. The greedy
      white-space run is taken whole; `.` stops at a line feed and `$` matches at the end or
      before a final line feed, so the attempt succeeds exactly when no line feed follows
      the run before the last character, and the group is the rest without that final line
      feed. */
  function MatchAt(s: string, i: nat): (group: Option<string>)
    ensures group.Some? ==> BearerAt(s, i) && i + 6 < |s| && IsSpace(s[i + 6])
  {
    if !BearerAt(s, i) || i + 6 >= |s| || !IsSpace(s[i + 6]) then None
    else
      var e := SkipSpaces(s, i + 6);
      if !NoInnerLineFeed(s, e) then None
      else if e < |s| && s[|s| - 1] == '\n' then Some(s[e..|s| - 1])
      else Some(s[e..])
  }

  /** preg_match: the leftmost index at or after `from` where the pattern matches. */
  function FirstMatch(s: string, from: nat): (r: Option<string>)
    decreases |s| - from
    ensures r.Some? ==> exists i :: from <= i <= |s| && MatchAt(s, i) == r
    ensures r.None? ==> forall i :: from <= i <= |s| ==> MatchAt(s, i).None?
  {
    if from > |s| then None
    else if MatchAt(s, from).Some? then MatchAt(s, from)
    else FirstMatch(s, from + 1)
  }

  /** The token the filter validates: the capture group when the pattern matches,
      otherwise the whole header line. */
  function BearerToken(header: string): string {
    match FirstMatch(header, 0)
    case Some(group) => group
    case None => header
  }

  /** For a header line without line feeds: at the first "Bearer" followed by white space,
      the token is everything after that white space. */
  lemma {:induction false} BearerTokenAfterScheme(header: string, i: nat)
    requires '\n' !in header
    requires BearerAt(header, i) && i + 6 < |header| && IsSpace(header[i + 6])
    requires forall j :: 0 <= j < i ==> !(BearerAt(header, j) && j + 6 < |header| && IsSpace(header[j + 6]))
    ensures BearerToken(header) == header[SkipSpaces(header, i + 6)..]
  {
    assert MatchAt(header, i) == Some(header[SkipSpaces(header, i + 6)..]);
    FirstMatchFinds(header, 0, i);
  }

  lemma {:induction false} FirstMatchFinds(s: string, from: nat, i: nat)
    requires from <= i <= |s| && MatchAt(s, i).Some?
    requires forall j :: from <= j < i ==> MatchAt(s, j).None?
    ensures FirstMatch(s, from) == MatchAt(s, i)
    decreases i - from
  {
    if from < i {
      assert MatchAt(s, from).None?;
      assert FirstMatch(s, from) == FirstMatch(s, from + 1);
      FirstMatchFinds(s, from + 1, i);
    } else {
      assert FirstMatch(s, from) == MatchAt(s, from);
    }
  }

  /** Without "Bearer" followed by white space anywhere, the whole header is the token. */
  lemma NoSchemeWholeHeader(header: string)
    requires forall j :: 0 <= j < |header| ==> !(BearerAt(header, j) && j + 6 < |header| && IsSpace(header[j + 6]))
    ensures BearerToken(header) == header
  {
  }

  /** The user the filter attaches for an Authorization header line: none for an empty
      header, otherwise what validateToken gives for the extracted token as an access
      token. */
  function AccessUser(s: Settings, codec: Codec, users: Users, header: string): Option<User> {
    if !StringTruthy(header) then None
    else ValidateToken(s, codec, users, Some(BearerToken(header)), Some("access"))
  }

  /** JwtAuthFilter::before: OPTIONS passes untouched; otherwise a missing header or a
      token that does not validate as an access token gives 401, and a valid one attaches
      its user to the request, which is passed on. */
  method JwtAuthBefore(request: Request, s: Settings, codec: Codec, users: Users) returns (r: FilterResult)
    modifies request`authenticatedUser
    ensures ToLower(request.httpMethod) == "options" ==> r == Proceed(request) && unchanged(request)
    ensures ToLower(request.httpMethod) != "options" ==>
      var user := AccessUser(s, codec, users, request.HeaderLine("Authorization"));
      && (user.None? ==> r == Halt(Unauthorized) && unchanged(request))
      && (user.Some? ==> r == Proceed(request) && request.authenticatedUser == user)
  {
    if ToLower(request.httpMethod) == "options" {
      return Proceed(request);
    }
    var token := request.HeaderLine("Authorization");
    if !StringTruthy(token) {
      return Halt(Unauthorized);
    }
    var matched := FirstMatch(token, 0);
    if matched.Some? {
      token := matched.value;
    }
    var user := ValidateToken(s, codec, users, Some(token), Some("access"));
    if user.None? {
      return Halt(Unauthorized);
    }
    var self := request.SetUser(user.value);
    return Proceed(request);
  }

  /** A token whose decoded purpose is not "access" (a refresh or password-reset token)
      never authenticates a request. */
  lemma NonAccessTokenRefused(s: Settings, codec: Codec, users: Users, header: string, c: Claims)
    requires DecodeAnyKey(s, codec, BearerToken(header)) == Returns(c)
    requires c.Keys >= {"purpose"} && c["purpose"] != Str("access")
    ensures AccessUser(s, codec, users, header) == None
  {
    if StringTruthy(header) {
      WrongPurposeRejected(s, codec, users, BearerToken(header), "access", c);
    }
  }

  // ----- AdminOnlyFilter -----

  /** The role enumeration; only Admin is consulted by the gate. */
  datatype Role = User | Admin | OrgAdmin | TenantAdmin {
    function Name(): string {
      match this
      case User => "User"
      case Admin => "Admin"
      case OrgAdmin => "OrgAdmin"
      case TenantAdmin => "TenantAdmin"
    }
  }

  /** The user's roles as the gate sees them: `(array) $user['role']`. */
  function RolesOf(user: Row): seq<Value>
    requires IsSet(user, "role")
  {
    ToArray(user["role"])
  }

  /** An attached user whose roles hold exactly "Admin". */
  predicate IsAdminUser(user: Option<Row>) {
    user.Some? && IsSet(user.value, "role") && Str(Admin.Name()) in RolesOf(user.value)
  }

  /** AdminOnlyFilter::before: pass only a request whose user has a role list (or a single
      role string) holding exactly "Admin"; otherwise 401. */
  function AdminOnlyBefore(request: Request): (r: FilterResult)
    reads request
    ensures r.Proceed? <==> IsAdminUser(request.authenticatedUser)
    ensures r.Proceed? ==> r.request == request
    ensures r.Halt? ==> r.response == Unauthorized
  {
    var user := request.authenticatedUser;
    if user.None? || user.value == map[] || !IsSet(user.value, "role")
       || Str(Admin.Name()) !in ToArray(user.value["role"]) then
      Halt(Unauthorized)
    else Proceed(request)
  }

  /** The gate is exact: a single role string counts as a one-element list, the match is
      case-sensitive, and a role that is only stored inside a comma-joined string does not
      count. */
  lemma AdminGateExamples(request: Request)
    ensures request.authenticatedUser == Some(map["role" := Str("Admin")]) ==> AdminOnlyBefore(request).Proceed?
    ensures request.authenticatedUser == Some(map["role" := Arr([Str("User"), Str("Admin")])]) ==> AdminOnlyBefore(request).Proceed?
    ensures request.authenticatedUser == Some(map["role" := Str("admin")]) ==> AdminOnlyBefore(request).Halt?
    ensures request.authenticatedUser == Some(map["role" := Str("User,Admin")]) ==> AdminOnlyBefore(request).Halt?
    ensures request.authenticatedUser == Some(map["role" := Null]) ==> AdminOnlyBefore(request).Halt?
    ensures request.authenticatedUser == None ==> AdminOnlyBefore(request).Halt?
  {
  }

  // ----- ApiAcceptFilter -----

  const MethodsWithoutBody: seq<string> := ["get", "delete", "options", "head"]

  const UnsupportedMediaType: Response :=
    Response(415, StatusMessage("error", "Accept must include application/json"))

  /** ApiAcceptFilter::before: GET, DELETE, OPTIONS and HEAD pass; other methods pass when
      the lower-cased Accept line is empty or contains "application/json" or the literal
      any-type range (star, slash, star) anywhere; everything else gets 415. */
  function ApiAcceptBefore(request: Request): (r: FilterResult)
    ensures r.Proceed? ==> r.request == request
    ensures r.Halt? ==> r.response == UnsupportedMediaType
    ensures r.Halt? <==> var accept := ToLower(request.HeaderLine("accept"));
      && ToLower(request.httpMethod) !in MethodsWithoutBody
      && accept != ""
      && !Contains(accept, "application/json") && !Contains(accept, "*/*")
  {
    IndexOfFindsContainment(ToLower(request.HeaderLine("accept")), "application/json");
    IndexOfFindsContainment(ToLower(request.HeaderLine("accept")), "*/*");
    var verb := ToLower(request.httpMethod);
    if verb in MethodsWithoutBody then Proceed(request)
    else
      var accept := ToLower(request.HeaderLine("accept"));
      if accept == "" || IndexOf(accept, "application/json", 0).Some? || IndexOf(accept, "*/*", 0).Some? then Proceed(request)
      else Halt(UnsupportedMediaType)
  }

  /** The test is a substring test, not media-range parsing: "application/jsonp" passes and
      the media range for all application types (application, slash, star) is refused on a
      POST. */
  lemma AcceptIsSubstringTest(request: Request)
    requires ToLower(request.httpMethod) == "post"
    ensures request.HeaderLine("accept") == "application/jsonp" ==> ApiAcceptBefore(request).Proceed?
    ensures request.HeaderLine("accept") == "application/*" ==> ApiAcceptBefore(request).Halt?
  {
    if request.HeaderLine("accept") == "application/jsonp" {
      assert OccursAt(ToLower("application/jsonp"), "application/json", 0);
    }
    if request.HeaderLine("accept") == "application/*" {
      var a := ToLower("application/*");
      assert a == "application/*";
      forall i: nat | i <= |a| ensures !OccursAt(a, "application/json", i) && !OccursAt(a, "*/*", i) {
        if i + 3 <= |a| {
          var prefix := "application/";
          assert a == prefix + "*" && '*' !in prefix;
          assert a[i] == prefix[i] && a[i..i + 3][0] == a[i];
        }
      }
    }
  }

  /** ApiAcceptFilter::after returns the response it was given. */
  function ApiAcceptAfter(request: Request, response: Response): (r: Response)
    ensures r == response
  {
    response
  }
}
