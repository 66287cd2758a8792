/** The protected auth routes: me, logout and refresh-token sit behind the JWT filter and
    then the admin-only filter, and the action runs only when both pass. */
module Routes {
  import opened Text
  import opened Php
  import opened JwtConfig
  import opened AuthService
  import opened Http
  import opened Filters
  import AuthController

  /** The filter list ['jwt', 'adminOnly'], in order: the first filter that halts answers
      the request (Some response); None means both passed, and then the request carries
      an Admin user with a valid access token. */
  method Guard(request: Request, s: Settings, codec: Codec, users: Users) returns (halt: Option<Response>)
    modifies request`authenticatedUser
    ensures ToLower(request.httpMethod) != "options" ==>
      var user := AccessUser(s, codec, users, request.HeaderLine("Authorization"));
      && (halt.None? <==> IsAdminUser(user))
      && (user.Some? ==> request.authenticatedUser == user)
      && (user.None? ==> unchanged(request))
    ensures ToLower(request.httpMethod) == "options" ==>
      (halt.None? <==> IsAdminUser(request.authenticatedUser)) && unchanged(request)
    ensures halt.Some? ==> halt.value == Unauthorized
  {
    var first := JwtAuthBefore(request, s, codec, users);
    if first.Halt? {
      return Some(first.response);
    }
    var second := AdminOnlyBefore(request);
    if second.Halt? {
      return Some(second.response);
    }
    return None;
  }

  /** POST auth/refresh-token behind the filters. */
  method RefreshRoute(request: Request, s: Settings, codec: Codec, users: Users, data: Row, d: Draws) returns (r: Response)
    modifies request`authenticatedUser
    ensures ToLower(request.httpMethod) != "options" ==>
      r == if IsAdminUser(AccessUser(s, codec, users, request.HeaderLine("Authorization")))
           then AuthController.RefreshToken(s, codec, users, data, d) else Unauthorized
  {
    var halt := Guard(request, s, codec, users);
    r := if halt.Some? then halt.value else AuthController.RefreshToken(s, codec, users, data, d);
  }

  /** GET auth/me behind the filters: the Admin user the JWT filter attached. */
  method MeRoute(request: Request, s: Settings, codec: Codec, users: Users) returns (r: Response)
    modifies request`authenticatedUser
    ensures ToLower(request.httpMethod) != "options" ==>
      var user := AccessUser(s, codec, users, request.HeaderLine("Authorization"));
      r == if IsAdminUser(user) then Respond(UserData(user.value)) else Unauthorized
  {
    var halt := Guard(request, s, codec, users);
    r := if halt.Some? then halt.value else AuthController.Me(request);
  }

  /** GET auth/logout behind the filters. */
  method LogoutRoute(request: Request, s: Settings, codec: Codec, users: Users) returns (r: Response)
    modifies request`authenticatedUser
    ensures ToLower(request.httpMethod) != "options" ==>
      r == if IsAdminUser(AccessUser(s, codec, users, request.HeaderLine("Authorization")))
           then AuthController.Logout() else Unauthorized
  {
    var halt := Guard(request, s, codec, users);
    r := if halt.Some? then halt.value else AuthController.Logout();
  }

  /** Refreshing needs more than a refresh token: the Authorization header must carry a
      valid access token of an Admin, so a client holding only its refresh token (or a
      non-Admin user) can never reach the refresh action. */
  lemma RefreshNeedsAdminAccessToken(s: Settings, codec: Codec, users: Users, header: string, c: Claims)
    requires DecodeAnyKey(s, codec, BearerToken(header)) == Returns(c)
    requires c.Keys >= {"purpose"} && c["purpose"] != Str("access")
    ensures !IsAdminUser(AccessUser(s, codec, users, header))
  {
    NonAccessTokenRefused(s, codec, users, header, c);
  }
}
