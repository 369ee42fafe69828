/** The bearer-token gate of server/middleware/auth.js. Signing and verification are
    the JSON Web Token library's business: here they are the function parameters
    `sign` and `verify`, and only the header parsing and the three-way branch on the
    verification result are modelled. */
module TokenAuth {

  import opened Wrappers
  import opened Text
  import opened Schema

  /** The signed payload `{ userId }`. */
  datatype Claims = Claims(userId: UserId)

  /** What the gate does with a request: 401 or 403 without calling `next`, or
      `req.user := user` followed by exactly one call of `next`. */
  datatype AuthOutcome = Unauthenticated | InvalidToken | Authenticated(user: Claims)

  const NoTokenText := "Kein Token vorhanden"
  const InvalidTokenText := "Ungültiger Token"

  /** `authHeader && authHeader.split(' ')[1]`, with a falsy result (a missing header,
      a missing second field, an empty second field) as None. */
  function ExtractToken(header: Option<string>): (token: Option<string>)
    ensures token.Some? ==> token.value != "" && ' ' !in token.value
    ensures token.Some? <==> header.Some? && Field(header.value, ' ', 1).Some? && Field(header.value, ' ', 1).value != ""
  {
    match header
    case None => None
    case Some(h) =>
      match Field(h, ' ', 1)
      case None => None
      case Some(t) => if t == "" then None else Some(t)
  }

  /** `authenticateToken`. */
  function Authenticate(header: Option<string>, verify: string -> Option<Claims>): (r: AuthOutcome)
    ensures r.Unauthenticated? <==> ExtractToken(header).None?
    ensures r.InvalidToken? <==> ExtractToken(header).Some? && verify(ExtractToken(header).value).None?
    ensures r.Authenticated? <==> ExtractToken(header).Some? && verify(ExtractToken(header).value).Some?
    ensures r.Authenticated? ==> verify(ExtractToken(header).value) == Some(r.user)
  {
    match ExtractToken(header)
    case None => Unauthenticated
    case Some(token) =>
      match verify(token)
      case None => InvalidToken
      case Some(user) => Authenticated(user)
  }

  /** The error response of a rejected request. */
  function Rejection<T>(r: AuthOutcome): (resp: Response<T>)
    requires !r.Authenticated?
    ensures resp.Error? && (resp.status == Unauthorized <==> r.Unauthenticated?)
    ensures resp.Error? && (resp.status == Forbidden <==> r.InvalidToken?)
  {
    if r.Unauthenticated? then Error(Unauthorized, NoTokenText) else Error(Forbidden, InvalidTokenText)
  }

  /** `generateToken(userId)`: `jwt.sign({ userId }, ...)`. */
  function GenerateToken(sign: Claims -> string, userId: UserId): string {
    sign(Claims(userId))
  }

  /** The header the web client sends: `Bearer ${token}`. */
  function BearerHeader(token: string): (h: string)
    ensures |h| == |token| + 7 && h[..7] == "Bearer " && h[7..] == token
  {
    "Bearer " + token
  }

  /** A signer and a verifier that belong together (same secret, token in date): what
      is signed verifies to the same claims, and tokens are non-empty and space-free,
      as the three dot-separated base64url parts of a JSON Web Token are. */
  ghost predicate KeyPair(sign: Claims -> string, verify: string -> Option<Claims>) {
    forall c :: verify(sign(c)) == Some(c) && sign(c) != "" && ' ' !in sign(c)
  }

  /** A request without an Authorization header gets 401. */
  lemma MissingHeaderUnauthenticated(verify: string -> Option<Claims>)
    ensures Authenticate(None, verify) == Unauthenticated
  {
  }

  /** A header without a space has no second field: 401. */
  lemma NoSpaceUnauthenticated(h: string, verify: string -> Option<Claims>)
    requires ' ' !in h
    ensures Authenticate(Some(h), verify) == Unauthenticated
  {
    SplitWithout(h, ' ');
  }

  /** A header whose second field is empty (`"Bearer "`, `"Bearer  x"`) gets 401. */
  lemma EmptyFieldUnauthenticated(scheme: string, rest: string, verify: string -> Option<Claims>)
    requires ' ' !in scheme
    ensures Authenticate(Some(scheme + " " + " " + rest), verify) == Unauthenticated
    ensures Authenticate(Some(scheme + " "), verify) == Unauthenticated
  {
    assert scheme + " " + " " + rest == scheme + [' '] + ([] + [' '] + rest);
    SplitAtFirst(scheme, ' ', [] + [' '] + rest);
    SplitAtFirst([], ' ', rest);
    assert scheme + " " == scheme + [' '] + [];
    SplitAtFirst(scheme, ' ', []);
    SplitWithout([], ' ');
  }

  /** The token is the second field whatever the first one says: the scheme word is
      never checked. */
  lemma {:induction false} BearerTokenParses(scheme: string, token: string)
    requires ' ' !in scheme && ' ' !in token && token != ""
    ensures ExtractToken(Some(scheme + " " + token)) == Some(token)
  {
    assert scheme + " " + token == scheme + [' '] + token;
    TwoFields(scheme, ' ', token);
  }

  /** The client's header built from a freshly issued token passes the gate with the
      claims the token was issued for. */
  lemma {:induction false} IssuedTokenAuthenticates(sign: Claims -> string, verify: string -> Option<Claims>,
                                                    userId: UserId)
    requires KeyPair(sign, verify)
    ensures Authenticate(Some(BearerHeader(GenerateToken(sign, userId))), verify) ==
            Authenticated(Claims(userId))
  {
    var token := GenerateToken(sign, userId);
    assert verify(token) == Some(Claims(userId)) && token != "" && ' ' !in token;
    BearerTokenParses("Bearer", token);
  }
}
