/**
 * The admission rules of `WSHandler` (server/internal/chat/handler.go):
 * where the token comes from, when the request is refused, and the
 * registration of the new connection with the hub of
 * server/internal/chat/ws. The validator is a parameter; the upgrade and
 * the read/write pumps are socket I/O outside the model.
 */
module WsHandler {
  import opened Wrappers
  import opened Text
  import opened Hub

  const Unauthorized := 401
  const ErrMissingToken := "missing token"
  const ErrInvalidToken := "invalid token"

  const BearerPrefix := "bearer "

  /** An `AuthValidator`: a user id, or an error. */
  type Validator = string -> Result<string>

  /** The header's rest after a case-insensitive "bearer " prefix, else the `token` query parameter. */
  function ExtractToken(auth: string, query: string): (t: string)
    ensures HasPrefix(Lower(auth), BearerPrefix) ==> |auth| >= 7 && t == auth[7..]
    ensures !HasPrefix(Lower(auth), BearerPrefix) ==> t == query
  {
    if HasPrefix(Lower(auth), BearerPrefix) then auth[7..] else query
  }

  /**
   * The seven characters that lower-case to "bearer " are ASCII, so cutting
   * seven characters is cutting the seven bytes `auth[7:]` cuts.
   */
  lemma BearerPrefixBytes(auth: string)
    requires HasPrefix(Lower(auth), BearerPrefix)
    ensures Utf8Len(auth[..7]) == 7
    ensures Lower(auth[..7]) == BearerPrefix
  {
    forall i | 0 <= i < 7
      ensures auth[..7][i] as int < 0x80 && LowerChar(auth[..7][i]) == BearerPrefix[i]
    {
      LowerAt(auth, i);
      assert Lower(auth)[..7][i] == BearerPrefix[i];
    }
    Utf8LenAscii(auth[..7]);
    forall i | 0 <= i < 7
      ensures Lower(auth[..7])[i] == BearerPrefix[i]
    {
      LowerAt(auth[..7], i);
    }
  }

  datatype Decision =
    | Deny(status: int, message: string)
    | Admit(userId: string)

  /** The accept/reject rules: a token must be present, and the validator must return a user id. */
  function Decide(auth: string, query: string, validator: Validator): (d: Decision)
    ensures ExtractToken(auth, query) == "" ==> d == Deny(Unauthorized, ErrMissingToken)
    ensures ExtractToken(auth, query) != "" && validator(ExtractToken(auth, query)).Err? ==>
      d == Deny(Unauthorized, ErrInvalidToken)
    ensures d.Admit? <==>
      ExtractToken(auth, query) != "" && validator(ExtractToken(auth, query)).Ok? &&
      validator(ExtractToken(auth, query)).value != ""
    ensures d.Admit? ==> d.userId == validator(ExtractToken(auth, query)).value
    ensures d.Deny? ==> d.status == Unauthorized
  {
    var token := ExtractToken(auth, query);
    if token == "" then Deny(Unauthorized, ErrMissingToken)
    else match validator(token)
      case Err(_) => Deny(Unauthorized, ErrInvalidToken)
      case Ok(userId) => if userId == "" then Deny(Unauthorized, ErrInvalidToken) else Admit(userId)
  }

  /** With no token the validator is never consulted: any two validators give the same answer. */
  lemma NoTokenSkipsValidator(auth: string, query: string, v1: Validator, v2: Validator)
    requires ExtractToken(auth, query) == ""
    ensures Decide(auth, query, v1) == Decide(auth, query, v2) == Deny(Unauthorized, ErrMissingToken)
  {
  }

  /** A bearer header wins over the query. */
  lemma BearerHeaderWins(auth: string, q1: string, q2: string, v: Validator)
    requires HasPrefix(Lower(auth), BearerPrefix)
    ensures Decide(auth, q1, v) == Decide(auth, q2, v)
  {
  }

  /** A header that is just the prefix, in any case, is refused as a missing token whatever the query holds. */
  lemma BareBearerRefused(auth: string, query: string, v: Validator)
    requires Lower(auth) == BearerPrefix
    ensures Decide(auth, query, v) == Deny(Unauthorized, ErrMissingToken)
  {
    assert HasPrefix(Lower(auth), BearerPrefix);
    assert ExtractToken(auth, query) == auth[7..];
    assert |auth| == 7;
  }

  /** A header without the prefix is ignored: only the query token matters. */
  lemma OtherHeaderIgnored(a1: string, a2: string, query: string, v: Validator)
    requires !HasPrefix(Lower(a1), BearerPrefix) && !HasPrefix(Lower(a2), BearerPrefix)
    ensures Decide(a1, query, v) == Decide(a2, query, v)
  {
  }

  /**
   * One request: a refused request leaves the hub as it was; an admitted one
   * registers a fresh client for the user and queues its `conn.ack` welcome.
   */
  method Serve(h: Registry, auth: string, query: string, validator: Validator, clientId: string, now: int)
    returns (d: Decision, client: Option<Client>)
    requires h.Valid()
    modifies h`clients, h`userConns
    ensures h.Valid()
    ensures d == Decide(auth, query, validator)
    ensures d.Deny? ==> client.None? && h.clients == old(h.clients) && h.userConns == old(h.userConns)
    ensures d.Admit? ==>
      client.Some? && fresh(client.value) &&
      client.value.id == clientId && client.value.userId == d.userId && client.value.subscriptions == {} &&
      h.clients == old(h.clients) + {client.value} && h.userConns == AddTo(old(h.userConns), d.userId, client.value) &&
      client.value.outbox == (if h.sendsAck then [AckEvent(clientId, d.userId, now)] else []) + [AckEvent(clientId, d.userId, now)]
  {
    d := Decide(auth, query, validator);
    if d.Deny? {
      return d, None;
    }
    var c := new Client(clientId, d.userId);
    h.AddClient(c, now);
    c.outbox := c.outbox + [AckEvent(clientId, d.userId, now)];
    client := Some(c);
  }
}
