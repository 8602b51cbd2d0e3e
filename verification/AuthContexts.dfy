/** Who a request is, and the outcomes that a request can have: the types of auth/middleware.go. */
module AuthContexts {
  import opened Bytes
  import Bearer
  import Grants

  /** The authentication methods; `Unset` stands for every other string. */
  datatype Method = OAUTH_LEGACY | OAUTH2 | COOKIE | INTERNAL | ANON_INTERNAL | WEBHOOK | Unset

  /** A user's row. The suspension notice may be null even when the user is suspended. */
  datatype User = User(username: Str, suspended: bool, notice: Option<Str>)

  datatype InternalAuth = InternalAuth(name: Str, clientID: Str, nodeID: Str, oauthClientUUID: Str)

  function Zeros(n: nat): (r: Str)
    ensures |r| == n
  {
    if n == 0 then [] else [0] + Zeros(n - 1)
  }

  type Hash = h: Str | |h| == 64 witness Zeros(64)

  const NO_USER := User([], false, None)
  const NO_GRANTS := Grants.Grants(false, false, map[], [])
  const NO_INTERNAL := InternalAuth([], [], [], [])
  const NO_HASH: Hash := Zeros(64)

  datatype AuthContext = AuthContext(
    authMethod: Method, user: User, internal: InternalAuth,
    bearer: Option<Bearer.BearerToken>, grants: Grants.Grants, tokenHash: Hash)

  function ContextFor(m: Method, user: User): AuthContext {
    AuthContext(m, user, NO_INTERNAL, None, NO_GRANTS, NO_HASH)
  }

  /** What a handler does to an exchange: an error reply, a call of the next handler, or a panic. */
  datatype Reply = Error(code: int) | NextOpen | Next(ctx: AuthContext) | Crash

  /** A query for a user, successful or not. */
  datatype Lookup = LookupFailed | Found(user: User)

  datatype Revocation = RevocationFailed | Revoked | Live
}
