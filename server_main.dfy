/**
 * The in-house helpers of server/cmd/main.go: `getEnv`, the `jwtValidator`
 * closure handed to the websocket handler, and the `withCORS` wrapper. The
 * environment is a map; `ValidateJWT` is a parameter; the response writer
 * is an object whose header map is set in place and which counts how often
 * the wrapped handler ran.
 */
module ServerMain {
  import opened Wrappers
  import opened WsTypes
  import AuthMiddleware
  import WsHandler

  /** `getEnv`: the variable's value, unless it is unset or empty. */
  function GetEnv(env: map<string, string>, k: string, def: string): (v: string)
    ensures k in env && env[k] != "" ==> v == env[k]
    ensures !(k in env && env[k] != "") ==> v == def
    ensures def != "" ==> v != ""
  {
    if k in env && env[k] != "" then env[k] else def
  }

  const ErrUserIdMissing := "user_id missing in token"

  /** `jwtValidator`: the validation error, or the `user_id` claim, which must be a non-empty string. */
  function JwtValidator(token: string, validate: string -> Result<AuthMiddleware.Claims>): (r: Result<string>)
    ensures validate(token).Err? ==> r == Err(validate(token).error)
    ensures validate(token).Ok? && StringAt(validate(token).value, "user_id") == "" ==> r == Err(ErrUserIdMissing)
    ensures r.Ok? <==> validate(token).Ok? && StringAt(validate(token).value, "user_id") != ""
    ensures r.Ok? ==> r.value == StringAt(validate(token).value, "user_id") && r.value != ""
  {
    match validate(token)
    case Err(e) => Err(e)
    case Ok(claims) =>
      var uid := StringAt(claims, "user_id");
      if uid == "" then Err(ErrUserIdMissing) else Ok(uid)
  }

  /**
   * Wired into the websocket handler, the validator admits exactly the
   * requests whose token validates with a string `user_id`, and the
   * handler's own empty-id check never fires.
   */
  lemma WsAdmission(auth: string, query: string, validate: string -> Result<AuthMiddleware.Claims>)
    ensures var token := WsHandler.ExtractToken(auth, query);
      var d := WsHandler.Decide(auth, query, t => JwtValidator(t, validate));
      (d.Admit? <==> token != "" && validate(token).Ok? && StringAt(validate(token).value, "user_id") != "") &&
      (d.Admit? ==> d.userId == StringAt(validate(token).value, "user_id"))
  {
    var token := WsHandler.ExtractToken(auth, query);
    var v: WsHandler.Validator := t => JwtValidator(t, validate);
    assert v(token) == JwtValidator(token, validate);
  }

  // ---------------------------------------------------------------- withCORS

  const DevOrigin := "http://localhost:3000"
  const LoopbackOrigin := "http://127.0.0.1:3000"
  const AllowOrigin := "Access-Control-Allow-Origin"
  const AllowHeaders := "Access-Control-Allow-Headers"
  const AllowMethods := "Access-Control-Allow-Methods"
  const MaxAge := "Access-Control-Max-Age"
  const NoContent := 204

  predicate AllowedOrigin(origin: string) {
    origin == DevOrigin || origin == LoopbackOrigin
  }

  /** The headers `withCORS` sets for a request from `origin`. */
  function CorsHeaders(origin: string): (h: map<string, string>)
    ensures AllowHeaders in h && h[AllowHeaders] == "Authorization, Content-Type"
    ensures AllowMethods in h && h[AllowMethods] == "GET,POST,PUT,PATCH,DELETE,OPTIONS"
    ensures MaxAge in h && h[MaxAge] == "3600"
    ensures AllowOrigin in h <==> AllowedOrigin(origin)
    ensures AllowOrigin in h ==> h[AllowOrigin] == origin
    ensures "Vary" in h <==> AllowedOrigin(origin)
    ensures "Vary" in h ==> h["Vary"] == "Origin"
    ensures forall k :: k in h ==> k in {AllowOrigin, "Vary", AllowHeaders, AllowMethods, MaxAge}
  {
    OriginCors(origin) + CommonCors()
  }

  /** The two headers only the allowed origins get. */
  function OriginCors(origin: string): map<string, string> {
    if AllowedOrigin(origin) then map[AllowOrigin := origin, "Vary" := "Origin"] else map[]
  }

  /** The three headers every request gets. */
  function CommonCors(): map<string, string> {
    map[AllowHeaders := "Authorization, Content-Type", AllowMethods := "GET,POST,PUT,PATCH,DELETE,OPTIONS",
        MaxAge := "3600"]
  }

  /** The part of an `http.ResponseWriter` the wrapper touches. */
  class ResponseWriter {
    var header: map<string, string>
    /** The status written, 0 while none is. */
    var status: int
    /** How many times the wrapped handler has served this request. */
    var nextCalls: nat

    constructor ()
      ensures header == map[] && status == 0 && nextCalls == 0
    {
      header, status, nextCalls := map[], 0, 0;
    }

    /** `Header().Set`: replaces the value under `k`. */
    method Set(k: string, v: string)
      modifies this`header
      ensures header == old(header)[k := v]
    {
      header := header[k := v];
    }

    method WriteHeader(code: int)
      modifies this`status
      ensures status == code
    {
      status := code;
    }
  }

  /**
   * `withCORS`: the CORS headers are set on every request; a preflight is
   * answered 204 without calling the wrapped handler, which otherwise runs
   * exactly once.
   */
  method WithCors(w: ResponseWriter, origin: string, reqMethod: string)
    modifies w`header, w`status, w`nextCalls
    ensures w.header == old(w.header) + CorsHeaders(origin)
    ensures reqMethod == "OPTIONS" ==> w.status == NoContent && w.nextCalls == old(w.nextCalls)
    ensures reqMethod != "OPTIONS" ==> w.status == old(w.status) && w.nextCalls == old(w.nextCalls) + 1
  {
    ghost var h0 := w.header;
    SetOriginHeaders(w, origin);
    SetCommonHeaders(w);
    MergeAssociative(h0, OriginCors(origin), CommonCors());
    if reqMethod == "OPTIONS" {
      w.WriteHeader(NoContent);
      return;
    }
    w.nextCalls := w.nextCalls + 1;
  }

  lemma MergeAssociative(a: map<string, string>, b: map<string, string>, c: map<string, string>)
    ensures (a + b) + c == a + (b + c)
  {
  }

  method SetOriginHeaders(w: ResponseWriter, origin: string)
    modifies w`header
    ensures w.header == old(w.header) + OriginCors(origin)
  {
    if origin == DevOrigin || origin == LoopbackOrigin {
      w.Set(AllowOrigin, origin);
      w.Set("Vary", "Origin");
    }
  }

  method SetCommonHeaders(w: ResponseWriter)
    modifies w`header
    ensures w.header == old(w.header) + CommonCors()
  {
    w.Set(AllowHeaders, "Authorization, Content-Type");
    w.Set(AllowMethods, "GET,POST,PUT,PATCH,DELETE,OPTIONS");
    w.Set(MaxAge, "3600");
  }

  /** A request from any other origin gets no `Access-Control-Allow-Origin`, but the other three headers. */
  lemma OtherOriginNotAllowed(origin: string)
    requires !AllowedOrigin(origin)
    ensures CorsHeaders(origin).Keys == {AllowHeaders, AllowMethods, MaxAge}
  {
  }
}
