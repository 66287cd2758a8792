/** The request object the filters and controllers share, with the authenticated-user slot
    the JWT filter fills, and the JSON responses the filters and the auth controller send. */
module Http {
  import opened Text
  import opened Php

  class Request {
    /** The HTTP method as the client sent it. */
    const httpMethod: string
    /** Header lines keyed by lower-case header name, as the framework normalises them. */
    const headers: map<string, string>
    /** The user attached for the rest of this request, or null. */
    var authenticatedUser: Option<Row>

    constructor (httpMethod: string, headers: map<string, string>)
      requires forall name :: name in headers ==> ToLower(name) == name
      ensures this.httpMethod == httpMethod && this.headers == headers
      ensures authenticatedUser == None
    {
      this.httpMethod := httpMethod;
      this.headers := headers;
      authenticatedUser := None;
    }

    /** getHeaderLine: the header's value, or "" when the request has no such header. */
    function HeaderLine(name: string): (line: string)
      ensures ToLower(name) !in headers ==> line == ""
      ensures ToLower(name) in headers ==> line == headers[ToLower(name)]
    {
      var key := ToLower(name);
      if key in headers then headers[key] else ""
    }

    /** setUser: stores the user and returns the same request. */
    method SetUser(user: Row) returns (self: Request)
      modifies this`authenticatedUser
      ensures authenticatedUser == Some(user)
      ensures self == this
    {
      authenticatedUser := Some(user);
      self := this;
    }

    /** getUser: the stored user, or null; nothing changes. */
    method GetUser() returns (user: Option<Row>)
      ensures user == authenticatedUser
    {
      user := authenticatedUser;
    }
  }

  /** A set user is read back unchanged, and reading does not disturb it. */
  method SetThenGet(request: Request, user: Row) returns (got: Option<Row>, again: Option<Row>)
    modifies request
    ensures got == Some(user) && again == Some(user)
    ensures request.authenticatedUser == Some(user)
  {
    var self := request.SetUser(user);
    got := request.GetUser();
    again := self.GetUser();
  }

  /** The body of a JSON response. `Failure` is the framework's fail() shape
      {status, error, messages}; the others are what the actions pass to respond(). */
  datatype Body =
    | Failure(messages: map<string, string>)
    | StatusMessage(status: string, message: string)
    | Message(text: string)
    | Tokens(accessToken: string, refreshToken: string, tokenType: string, expiresIn: int, user: Option<Row>)
    | UserData(profile: Row)
    /** respond(null) with no status: the framework answers 404 with an empty body. */
    | Empty
    /** An Error (not an Exception) escaped the action, such as a TypeError when a non-string
        body field reaches a string parameter; the framework's exception handler answers. */
    | Unhandled

  datatype Response = Response(code: int, body: Body)

  /** fail($description, $code): the description becomes messages.error. */
  function Fail(description: string, code: int): Response {
    Response(code, Failure(map["error" := description]))
  }

  function FailUnauthorized(description: string): Response {
    Fail(description, 401)
  }

  function FailServerError(description: string): Response {
    Fail(description, 500)
  }

  function FailValidationErrors(errors: map<string, string>): Response {
    Response(400, Failure(errors))
  }

  function Respond(body: Body): Response {
    Response(200, body)
  }
}
