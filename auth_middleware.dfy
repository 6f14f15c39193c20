/**
 * `AuthMiddleware` and `GetUserID` (server/internal/auth/middleware.go).
 * `ValidateJWT` is a parameter: a token maps to its claims or to an error.
 * The handler chain is an outcome value: a 401 with its message, or a
 * forward to the next handler with the two request-context values.
 */
module AuthMiddleware {
  import opened Wrappers
  import opened WsTypes
  import opened Text

  const Unauthorized := 401
  const ErrMissingHeader := "Missing Authorization header"
  const ErrHeaderFormat := "Invalid Authorization header format"
  const ErrToken := "Invalid or expired token"

  type Claims = map<string, Json>

  datatype Outcome =
    | Reject(status: int, message: string)
    | Forward(userId: string, role: string)

  /** The header is `<scheme> <token>` with exactly one space and the scheme "bearer" in any ASCII case. */
  predicate BearerFormat(header: string) {
    var parts := Split(header, ' ');
    |parts| == 2 && Lower(parts[0]) == "bearer"
  }

  /** The middleware's decision for one request. */
  function Authenticate(header: string, validate: string -> Result<Claims>): (o: Outcome)
    ensures header == "" ==> o == Reject(Unauthorized, ErrMissingHeader)
    ensures header != "" && !BearerFormat(header) ==> o == Reject(Unauthorized, ErrHeaderFormat)
    ensures header != "" && BearerFormat(header) && validate(Split(header, ' ')[1]).Err? ==>
      o == Reject(Unauthorized, ErrToken)
    ensures o.Forward? <==> header != "" && BearerFormat(header) && validate(Split(header, ' ')[1]).Ok?
    ensures o.Reject? ==> o.status == Unauthorized
  {
    if header == "" then Reject(Unauthorized, ErrMissingHeader)
    else
      var parts := Split(header, ' ');
      if |parts| != 2 || Lower(parts[0]) != "bearer" then Reject(Unauthorized, ErrHeaderFormat)
      else match validate(parts[1])
        case Err(_) => Reject(Unauthorized, ErrToken)
        case Ok(claims) => Forward(StringAt(claims, "user_id"), StringAt(claims, "role"))
  }

  /** Splitting `scheme + " " + token` on spaces gives back the two halves when neither holds a space. */
  lemma SplitBearer(scheme: string, token: string)
    requires ' ' !in scheme && ' ' !in token
    ensures Split(scheme + " " + token, ' ') == [scheme, token]
  {
    var h := scheme + " " + token;
    assert forall j :: 0 <= j < |scheme| ==> h[j] != ' ' by {
      forall j | 0 <= j < |scheme|
        ensures h[j] != ' '
      {
        assert h[j] == scheme[j];
      }
    }
    assert h[|scheme|] == ' ';
    assert IndexOf(h, ' ') == |scheme| by {
      IndexOfAt(h, ' ', |scheme|);
    }
    assert h[..|scheme|] == scheme;
    assert h[|scheme| + 1..] == token;
    assert IndexOf(token, ' ') == |token| by {
      IndexOfAt(token, ' ', |token|);
    }
  }

  /**
   * The accepted headers are exactly `scheme + " " + token` with no other
   * space and a "bearer" scheme; the token validated is that second half.
   */
  lemma BearerFormatExactly(header: string)
    ensures BearerFormat(header) <==>
      exists scheme, token :: ' ' !in scheme && ' ' !in token && Lower(scheme) == "bearer" &&
        header == scheme + " " + token
    ensures BearerFormat(header) ==> header == Split(header, ' ')[0] + " " + Split(header, ' ')[1]
  {
    var parts := Split(header, ' ');
    if |parts| == 2 {
      SplitJoin(header, ' ');
      assert Join(parts, [' ']) == parts[0] + [' '] + parts[1];
    }
    if exists scheme, token :: ' ' !in scheme && ' ' !in token && Lower(scheme) == "bearer" &&
        header == scheme + " " + token {
      var scheme, token :| ' ' !in scheme && ' ' !in token && Lower(scheme) == "bearer" &&
        header == scheme + " " + token;
      SplitBearer(scheme, token);
    }
  }

  /** A header with other than exactly one space, a doubled space for one, is a format error. */
  lemma SpaceCountRejected(header: string, validate: string -> Result<Claims>)
    requires header != "" && Count(header, ' ') != 1
    ensures Authenticate(header, validate) == Reject(Unauthorized, ErrHeaderFormat)
  {
    SplitLength(header, ' ');
  }

  /** A well-formed header forwards the `user_id` and `role` claims, each "" unless it is a string. */
  lemma ForwardClaims(scheme: string, token: string, validate: string -> Result<Claims>)
    requires ' ' !in scheme && ' ' !in token && Lower(scheme) == "bearer" && validate(token).Ok?
    ensures Authenticate(scheme + " " + token, validate) ==
      Forward(StringAt(validate(token).value, "user_id"), StringAt(validate(token).value, "role"))
  {
    SplitBearer(scheme, token);
  }

  /** `GetUserID`: the string stored under the user-id context key, otherwise "". */
  function GetUserId(stored: Option<Json>): (id: string)
    ensures stored.Some? && stored.value.JStr? ==> id == stored.value.s
    ensures !(stored.Some? && stored.value.JStr?) ==> id == ""
  {
    if stored.Some? && stored.value.JStr? then stored.value.s else ""
  }
}
