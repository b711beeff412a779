/**
 * The bearer-token middlewares of krs/middleware/token and
 * krs/authorization/token. Both let an ignored operation through untouched,
 * demand an "Authorization: Bearer <token>" header from every other one,
 * and hand the token to the handler in the context, under a string key in
 * the first package and under a key of a package-private type in the
 * second.
 *
 * The server transport is an optional input (absent when the context has
 * none); the handler is a function of the context it is called with.
 */
module TokenAuth {
  import opened Wrappers
  import opened GoStrings
  import ObjectStorage
  import Sequences

  const AuthorizationValueBearer := "Bearer"
  /** The context key NewService uses in krs/middleware/token. */
  const DefaultTokenContextKey := "token"

  /** The two reasons for a rejection. */
  datatype AuthError = MissingToken | InvalidToken

  const UnauthorizedCode := 401

  /** ErrMissingToken and ErrInvalidToken. */
  function Message(e: AuthError): string {
    match e
    case MissingToken => "missing token"
    case InvalidToken => "invalid token"
  }

  /** The error NewAuthorizationError builds: a code and a message. */
  datatype AuthorizationError = AuthorizationError(code: int, message: string)

  /** NewAuthorizationError with a reason's message, which it formats unchanged (it holds no verb). */
  function Rejection(e: AuthError): AuthorizationError {
    AuthorizationError(UnauthorizedCode, Message(e))
  }

  /** What the middleware reads from the server transport: the operation and the Authorization header ("" when absent). */
  datatype Transport = Transport(operation: string, authorization: string)

  /**
   * A context key: a plain string (krs/middleware/token), or the value
   * "token" of the unexported type contextKey (krs/authorization/token),
   * which no string key equals.
   */
  datatype Key = StringKey(name: string) | TypedTokenKey

  /** A context value: a string, or a value of any other type. */
  datatype Value = Text(s: string) | OtherValue

  type Context = map<Key, Value>

  /** The middleware's decision: call the handler as it is, reject, or call it with the token. */
  datatype Decision = Bypass | Reject(error: AuthError) | Accept(token: string)

  /**
   * The decision both Middleware functions take: an ignored operation and
   * only such a one is let through, and an accepted token is what follows
   * "Bearer " in the header.
   */
  function Decide(ignoredPaths: seq<string>, tr: Option<Transport>): (r: Decision)
    ensures r == Bypass <==> tr.Some? && tr.value.operation in ignoredPaths
    ensures r.Accept? ==> tr.Some? && tr.value.authorization == "Bearer " + r.token
  {
    match tr
    case None => Reject(MissingToken)
    case Some(t) =>
      if Sequences.Listed(t.operation, ignoredPaths) then Bypass
      else if t.authorization == "" then Reject(MissingToken)
      else
        var parts := SplitFirst(t.authorization, ' ');
        if |parts| != 2 || parts[0] != AuthorizationValueBearer then Reject(InvalidToken)
        else Accept(parts[1])
  }

  /** A request without a server transport is rejected as missing its token. */
  lemma NoTransportIsMissingToken(ignoredPaths: seq<string>)
    ensures Decide(ignoredPaths, None) == Reject(MissingToken)
  {
  }

  /** An ignored operation is let through whatever its header says. */
  lemma IgnoredOperationBypasses(ignoredPaths: seq<string>, t: Transport)
    requires t.operation in ignoredPaths
    ensures Decide(ignoredPaths, Some(t)) == Bypass
  {
  }

  /** Any other operation without an Authorization header is rejected as missing its token. */
  lemma EmptyHeaderIsMissingToken(ignoredPaths: seq<string>, operation: string)
    requires operation !in ignoredPaths
    ensures Decide(ignoredPaths, Some(Transport(operation, ""))) == Reject(MissingToken)
  {
  }

  /**
   * A non-empty header is accepted exactly when it is "Bearer", one space
   * and the token (which may be empty or contain spaces); anything else is
   * an invalid token.
   */
  lemma BearerIff(ignoredPaths: seq<string>, t: Transport, token: string)
    requires t.operation !in ignoredPaths && t.authorization != ""
    ensures Decide(ignoredPaths, Some(t)) == Accept(token) <==> t.authorization == "Bearer " + token
    ensures Decide(ignoredPaths, Some(t)).Accept? || Decide(ignoredPaths, Some(t)) == Reject(InvalidToken)
  {
    var h := t.authorization;
    if h == "Bearer " + token {
      assert h[6] == ' ' && ' ' !in h[..6];
      IndexOfAt(h, ' ', 6);
      assert h[..6] == "Bearer" && h[7..] == token;
    }
  }

  /** The scheme is compared case-sensitively and the space is required. */
  lemma BearerIsExact(ignoredPaths: seq<string>, operation: string)
    requires operation !in ignoredPaths
    ensures Decide(ignoredPaths, Some(Transport(operation, "bearer abc"))) == Reject(InvalidToken)
    ensures Decide(ignoredPaths, Some(Transport(operation, "Bearer"))) == Reject(InvalidToken)
  {
    BearerIff(ignoredPaths, Transport(operation, "bearer abc"), "abc");
    BearerIff(ignoredPaths, Transport(operation, "Bearer"), "");
    assert "Bearer" != "Bearer " + "";
    assert "bearer abc"[0] != ("Bearer " + "abc")[0];
  }

  /**
   * What the middleware returns: the handler's reply, or a 401 error that
   * says whether the token was missing or invalid. A request without a
   * transport is rejected, an ignored operation reaches the handler with
   * its context unchanged.
   */
  function Middleware<R>(ignoredPaths: seq<string>, key: Key, handler: Context -> R, ctx: Context,
                         tr: Option<Transport>): (r: Result<R, AuthorizationError>)
    ensures r.Failure? <==> Decide(ignoredPaths, tr).Reject?
    ensures r.Failure? ==> r.error.code == 401 && r.error.message in {"missing token", "invalid token"}
    ensures tr.None? ==> r == Failure(AuthorizationError(401, "missing token"))
    ensures tr.Some? && tr.value.operation in ignoredPaths ==> r == Success(handler(ctx))
  {
    match Decide(ignoredPaths, tr)
    case Bypass => Success(handler(ctx))
    case Reject(e) => Failure(Rejection(e))
    case Accept(token) => Success(handler(ctx[key := Text(token)]))
  }

  /** GetToken: the string stored under the key, or an error (each package words it its own way). */
  function GetToken(ctx: Context, key: Key): (r: Result<string, string>)
    ensures r.Success? <==> key in ctx && ctx[key].Text?
  {
    if key in ctx && ctx[key].Text? then Success(ctx[key].s)
    else if key.StringKey? then Failure("failed to get token from context")
    else Failure("failed to token from context")
  }

  /** The handler of an accepted request finds the token with GetToken; an ignored one sees the context as it was. */
  lemma HandlerSeesToken<R>(ignoredPaths: seq<string>, key: Key, handler: Context -> R, ctx: Context, tr: Option<Transport>)
    ensures Decide(ignoredPaths, tr).Accept? ==>
      Middleware(ignoredPaths, key, handler, ctx, tr) == Success(handler(ctx[key := Text(Decide(ignoredPaths, tr).token)]))
      && GetToken(ctx[key := Text(Decide(ignoredPaths, tr).token)], key) == Success(Decide(ignoredPaths, tr).token)
    ensures Decide(ignoredPaths, tr) == Bypass ==> Middleware(ignoredPaths, key, handler, ctx, tr) == Success(handler(ctx))
    ensures Decide(ignoredPaths, tr).Reject? ==>
      Middleware(ignoredPaths, key, handler, ctx, tr) == Failure(Rejection(Decide(ignoredPaths, tr).error))
  {
  }

  /** Storing the token changes only its own key. */
  lemma StoringKeepsOtherKeys(ctx: Context, key: Key, other: Key, token: string)
    requires other != key
    ensures GetToken(ctx[key := Text(token)], other) == GetToken(ctx, other)
  {
  }

  /** A token stored under the string "token" is not found under the typed key, and the other way round. */
  lemma TypedKeyIsSeparate(ctx: Context, token: string)
    requires StringKey(DefaultTokenContextKey) !in ctx && TypedTokenKey !in ctx
    ensures GetToken(ctx[StringKey(DefaultTokenContextKey) := Text(token)], TypedTokenKey).Failure?
    ensures GetToken(ctx[TypedTokenKey := Text(token)], StringKey(DefaultTokenContextKey)).Failure?
  {
  }

  /** GenerateToken: a fresh UUID without its dashes, 32 characters for a UUID's text. */
  function GenerateToken(uuid: string): (token: string)
    ensures '-' !in token
    ensures ObjectStorage.IsCanonicalUuid(uuid) ==> |token| == 32
  {
    ObjectStorage.TokenLength(uuid);
    DeleteChar(uuid, '-')
  }

  /** A generated token is made of lower-case hex digits. */
  lemma GeneratedTokenShape(uuid: string)
    requires ObjectStorage.IsCanonicalUuid(uuid)
    ensures forall i :: 0 <= i < 32 ==> ObjectStorage.IsLowerHex(GenerateToken(uuid)[i])
  {
    ObjectStorage.UuidWithoutDashes(uuid);
    forall i | 0 <= i < 32
      ensures ObjectStorage.IsLowerHex(GenerateToken(uuid)[i])
    {
      ObjectStorage.UuidTokenHex(uuid, i);
    }
  }
}
