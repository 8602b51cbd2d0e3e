/**
 * From a request's authority to a webhook's: `NewAuthConfig` (webhooks/config.go), `Exec`
 * (webhooks/context.go), `WebhookAuth` (auth/middleware.go) and the directives of server/directives.go.
 */
module Authority {
  import opened Bytes
  import Bearer
  import Grants
  import Hex
  import opened AuthContexts
  import opened OAuth2Join
  import opened Handlers

  // ----- directives

  datatype Access = Admit | Deny | Panics

  function AnonInternal(c: AuthContext): Access {
    if c.authMethod != ANON_INTERNAL then Deny else Admit
  }

  function Internal(c: AuthContext): Access {
    if c.authMethod != INTERNAL then Deny else Admit
  }

  function Private(c: AuthContext): Access {
    match c.authMethod
    case INTERNAL => Admit
    case COOKIE => Admit
    case OAUTH2 => if c.bearer.None? then Panics else if c.bearer.value.clientID != [] then Deny else Admit
    case _ => Deny
  }

  function ByGrants(c: AuthContext, scope: Str, kind: Str): Access {
    var has := Grants.Has(c.grants, scope, kind);
    if has.None? then Panics else if has.value then Admit else Deny
  }

  function AccessTo(c: AuthContext, scope: Str, kind: Str): Access {
    match c.authMethod
    case INTERNAL => Admit
    case COOKIE => Admit
    case OAUTH_LEGACY => if kind == Grants.RO then Admit else Deny
    case WEBHOOK => if kind != Grants.RO then Deny else ByGrants(c, scope, kind)
    case OAUTH2 => ByGrants(c, scope, kind)
    case ANON_INTERNAL => Deny
    case Unset => Panics
  }

  // ----- storing the authority of a webhook

  datatype AuthConfig = AuthConfig(
    authMethod: Method, tokenHash: Option<Str>, grants: Option<Str>,
    clientID: Option<Str>, expires: Option<Bearer.Instant>, nodeID: Option<Str>)

  datatype ConfigResult = Config(config: AuthConfig) | Unsupported | ConfigPanics

  function NewAuthConfig(c: AuthContext): ConfigResult {
    match c.authMethod
    case OAUTH_LEGACY => Unsupported
    case OAUTH2 =>
      if c.bearer.None? then ConfigPanics
      else
        var bt := c.bearer.value;
        Config(AuthConfig(OAUTH2, Some(Hex.Encode(c.tokenHash)), Some(bt.grants),
                          if bt.clientID != [] then Some(bt.clientID) else None, Some(Bearer.TimeOf(bt.expires)), None))
    case COOKIE => Unsupported
    case _ => ConfigPanics
  }

  /** The documented invariants of stored configurations. */
  predicate Documented(a: AuthConfig) {
    && a.authMethod in {OAUTH2, INTERNAL}
    && (a.authMethod == OAUTH2 ==> a.tokenHash.Some? && a.grants.Some? && a.expires.Some? && a.nodeID.None?)
    && (a.authMethod == INTERNAL ==>
          a.tokenHash.None? && a.grants.None? && a.expires.None? && a.clientID.None? && a.nodeID.Some?)
  }

  // ----- rebuilding it

  datatype ExecAuth = Context(ctx: AuthContext) | Expired | ExecPanics

  /** `WebhookAuth`. */
  function WebhookAuth(now: Bearer.Instant, service: Str, auth: AuthContext, hash: Hash, grants: Str,
                       clientID: Option<Str>, expires: Bearer.Instant): ExecAuth
  {
    if Bearer.After(now, expires) then Expired
    else
      var decoded := Grants.Decoded(service, grants);
      if decoded.None? then ExecPanics
      else Context(auth.(
        authMethod := WEBHOOK,
        tokenHash := hash,
        grants := decoded.value.(readOnly := true),
        bearer := Some(Bearer.BearerToken(0, 0, [], if clientID.Some? then clientID.value else [], []))))
  }

  /** The first 64 bytes, filled up with zeros. */
  function Copied(s: Str): (r: Hash)
  {
    if |s| >= 64 then s[..64] else s + Zeros(64 - |s|)
  }

  /** The context a stored subscription is executed in. */
  function Rebuilt(now: Bearer.Instant, service: Str, firing: AuthContext, sub: AuthConfig): ExecAuth {
    if sub.authMethod != OAUTH2 || sub.tokenHash.None? || Hex.Decode(sub.tokenHash.value).None?
       || sub.grants.None? || sub.expires.None?
    then ExecPanics
    else WebhookAuth(now, service, firing, Copied(Hex.Decode(sub.tokenHash.value).value), sub.grants.value,
                     sub.clientID, sub.expires.value)
  }

  lemma CopiedBytes(s: Str)
    ensures forall j :: 0 <= j < 64 ==> Copied(s)[j] == if j < |s| then s[j] else 0
  {
    forall j | |s| <= j < 64
      ensures Copied(s)[j] == 0
    {
      ZerosAt(64 - |s|, j - |s|);
    }
  }

  /** The authentication part of `Exec`. */
  method Exec(now: Bearer.Instant, service: Str, firing: AuthContext, sub: AuthConfig) returns (r: ExecAuth)
    ensures r == Rebuilt(now, service, firing, sub)
  {
    if sub.authMethod != OAUTH2 || sub.tokenHash.None? {
      return ExecPanics;
    }
    var tslice := Hex.Decode(sub.tokenHash.value);
    if tslice.None? || sub.grants.None? || sub.expires.None? {
      return ExecPanics;
    }
    var tokenHash := new byte[64](_ => 0);
    var n := if |tslice.value| < 64 then |tslice.value| else 64;
    for i := 0 to n
      invariant forall j :: 0 <= j < 64 ==> tokenHash[j] == if j < i then tslice.value[j] else 0
    {
      tokenHash[i] := tslice.value[i];
    }
    CopiedBytes(tslice.value);
    assert tokenHash[..] == Copied(tslice.value);
    r := WebhookAuth(now, service, firing, tokenHash[..], sub.grants.value, sub.clientID, sub.expires.value);
  }

  // ----- properties

  /** What is stored satisfies the documented invariants, and something is stored for OAuth 2.0 alone. */
  lemma StoredAsDocumented(c: AuthContext)
    ensures NewAuthConfig(c).Config? ==> Documented(NewAuthConfig(c).config)
    ensures NewAuthConfig(c).Config? <==> c.authMethod == OAUTH2 && c.bearer.Some?
    ensures NewAuthConfig(c).Unsupported? <==> c.authMethod == OAUTH_LEGACY || c.authMethod == COOKIE
  {
  }

  /** What is stored: the hash in lower-case hexadecimal, the grants as they are written, a client if there is one. */
  lemma StoredExactly(c: AuthContext)
    requires c.authMethod == OAUTH2 && c.bearer.Some?
    ensures NewAuthConfig(c).Config?
    ensures var a, bt := NewAuthConfig(c).config, c.bearer.value;
            && a.tokenHash.Some? && |a.tokenHash.value| == 128
            && (forall i :: 0 <= i < 64 ==>
                  && a.tokenHash.value[2 * i] as char == Hex.LOWER[c.tokenHash[i] / 16]
                  && a.tokenHash.value[2 * i + 1] as char == Hex.LOWER[c.tokenHash[i] % 16])
            && a.grants == Some(bt.grants) && a.expires == Some(Bearer.TimeOf(bt.expires))
            && a.clientID == if |bt.clientID| == 0 then None else Some(bt.clientID)
  {
    forall i | 0 <= i < 64
      ensures var t := Hex.Encode(c.tokenHash);
              && t[2 * i] as char == Hex.LOWER[c.tokenHash[i] / 16]
              && t[2 * i + 1] as char == Hex.LOWER[c.tokenHash[i] % 16]
    {
      Hex.EncodeAt(c.tokenHash, i);
    }
  }

  // ----- what the directives decide

  /** The directives that look at the method of authentication, and at the client of a token. */
  lemma DirectivesExactly(c: AuthContext, scope: Str, kind: Str)
    ensures Internal(c) == if c.authMethod.INTERNAL? then Admit else Deny
    ensures AnonInternal(c) == if c.authMethod.ANON_INTERNAL? then Admit else Deny
    ensures Private(c) == Admit <==>
              || c.authMethod.INTERNAL? || c.authMethod.COOKIE?
              || (c.authMethod.OAUTH2? && c.bearer.Some? && |c.bearer.value.clientID| == 0)
    ensures Private(c) == Panics <==> c.authMethod.OAUTH2? && c.bearer.None?
    ensures c.authMethod.INTERNAL? || c.authMethod.COOKIE? ==> AccessTo(c, scope, kind) == Admit
    ensures c.authMethod.OAUTH_LEGACY? ==> AccessTo(c, scope, kind) == if kind == Ascii("RO") then Admit else Deny
    ensures c.authMethod.ANON_INTERNAL? ==> AccessTo(c, scope, kind) == Deny
    ensures c.authMethod.WEBHOOK? && kind != Ascii("RO") ==> AccessTo(c, scope, kind) == Deny
    ensures c.authMethod.OAUTH2? && kind != Ascii("RO") && kind != Ascii("RW") ==> AccessTo(c, scope, kind) == Panics
    ensures AccessTo(c, scope, kind) == Panics ==>
              c.authMethod.Unset? || (c.authMethod.OAUTH2? && kind != Ascii("RO") && kind != Ascii("RW"))
    ensures c.authMethod.Unset? ==> AccessTo(c, scope, kind) == Panics
  {
    assert Grants.RO == Ascii("RO") && Grants.RW == Ascii("RW");
  }

  lemma ListDecides(c: AuthContext, scope: Str, kind: Str, permits: bool)
    requires c.authMethod in {OAUTH2, WEBHOOK} && kind in {Grants.RO, Grants.RW}
    requires Grants.Has(c.grants.(readOnly := false), scope, kind) == Some(permits)
    requires c.grants.readOnly <==> c.authMethod == WEBHOOK
    ensures AccessTo(c, scope, kind)
         == if permits && (c.authMethod.WEBHOOK? ==> kind == Ascii("RO")) then Admit else Deny
  {
    assert Grants.RO == Ascii("RO") && Grants.RW == Ascii("RW");
    Grants.ReadOnlyRemovesWrites(c.grants.(readOnly := false), scope);
    assert c.grants == c.grants.(readOnly := false).(readOnly := c.grants.readOnly);
  }

  /**
   * What a token's written grants decide: its holder is admitted exactly where the last grant for the
   * service and the scope permits the kind of access; a webhook of that authority only for reading.
   */
  lemma GrantsDecide(service: Str, ws: seq<Grants.Written>, c: AuthContext, scope: Str, kind: Str)
    requires c.authMethod in {OAUTH2, WEBHOOK} && kind in {Grants.RO, Grants.RW}
    requires ws != [] && Grants.AllWellFormed(ws)
    requires Some(c.grants.(readOnly := false)) == Grants.Decoded(service, Grants.PrintAll(ws))
    requires c.grants.readOnly <==> c.authMethod == WEBHOOK
    ensures var permits := Grants.Permits(Grants.LastAccess(service, scope, Grants.Meanings(ws)), kind);
            AccessTo(c, scope, kind)
            == if permits && (c.authMethod.WEBHOOK? ==> kind == Ascii("RO")) then Admit else Deny
  {
    Grants.PrintedGrants(service, ws, scope, kind);
    ListDecides(c, scope, kind, Grants.Permits(Grants.LastAccess(service, scope, Grants.Meanings(ws)), kind));
  }

  /** A token without grants is admitted everywhere, a webhook of its authority everywhere for reading. */
  lemma NoGrantsDecide(service: Str, c: AuthContext, scope: Str, kind: Str)
    requires c.authMethod in {OAUTH2, WEBHOOK} && kind in {Grants.RO, Grants.RW}
    requires Some(c.grants.(readOnly := false)) == Grants.Decoded(service, [])
    requires c.grants.readOnly <==> c.authMethod == WEBHOOK
    ensures AccessTo(c, scope, kind) == if c.authMethod.OAUTH2? || kind == Ascii("RO") then Admit else Deny
  {
    assert Grants.RO == Ascii("RO") && Grants.RW == Ascii("RW");
  }

  /**
   * From the issued token to the resolver: the holder of a token with written grants is admitted exactly
   * where the last of them for this service and the scope permits, and to private resolvers exactly when
   * the token is nobody's client's.
   */
  lemma IssuedTokenAdmits(req: Request, env: Env, word: Str, bt: Bearer.BearerToken, ws: seq<Grants.Written>,
                          scope: Str, kind: Str)
    requires Guarded(req.path) && req.cookie.None?
    requires Lower(word) == BEARER && Bearer.GoToken(bt)
    requires req.authorization == word + [SPACE] + Bearer.Encode(env.world.mac, bt)
    requires ws != [] && Grants.AllWellFormed(ws) && bt.grants == Grants.PrintAll(ws)
    requires kind in {Grants.RO, Grants.RW}
    ensures var rs := Replies(req, env);
            && |rs| == 1
            && (rs[0].Next? ==>
                  var last := Grants.LastAccess(env.world.service, scope, Grants.Meanings(ws));
                  && AccessTo(rs[0].ctx, scope, kind) == (if Grants.Permits(last, kind) then Admit else Deny)
                  && Private(rs[0].ctx) == if |bt.clientID| == 0 then Admit else Deny)
  {
    IssuedTokenServed(req, env, word, bt);
    var rs := Replies(req, env);
    if rs[0].Next? {
      var c := rs[0].ctx;
      assert !c.grants.readOnly && c.grants.(readOnly := false) == c.grants;
      GrantsDecide(env.world.service, ws, c, scope, kind);
    }
  }

  /** Contexts as `Middleware` and `WebhookAuth` make them. */
  predicate Built(c: AuthContext) {
    Admitted(c) || (c.authMethod == WEBHOOK && c.bearer.Some? && c.grants.readOnly)
  }

  /** No directive panics on a context that the code itself built, for the two kinds of access. */
  lemma DirectivesNeverPanic(c: AuthContext, scope: Str, kind: Str)
    requires Built(c) && kind in {Grants.RO, Grants.RW}
    ensures AccessTo(c, scope, kind) != Panics && Private(c) != Panics
  {
  }

  /** The same, from the request on. */
  lemma ServedRequestsNeverPanic(req: Request, env: Env, scope: Str, kind: Str)
    requires Guarded(req.path) && kind in {Grants.RO, Grants.RW}
    ensures var rs := Replies(req, env);
            forall i :: 0 <= i < |rs| && rs[i].Next? ==>
              && AccessTo(rs[i].ctx, scope, kind) != Panics && Private(rs[i].ctx) != Panics
              && rs[i].ctx.authMethod != WEBHOOK
  {
    GuardedRequests(req, env);
    WellAnsweredNeverPanics(Replies(req, env), scope, kind);
  }

  lemma WellAnsweredNeverPanics(rs: seq<Reply>, scope: Str, kind: Str)
    requires WellAnswered(rs) && kind in {Grants.RO, Grants.RW}
    ensures forall i :: 0 <= i < |rs| && rs[i].Next? ==>
              && AccessTo(rs[i].ctx, scope, kind) != Panics && Private(rs[i].ctx) != Panics
              && rs[i].ctx.authMethod != WEBHOOK
  {
    var last := rs[|rs| - 1];
    if last.Next? {
      DirectivesNeverPanic(last.ctx, scope, kind);
    }
  }

  lemma CopiedWhole(h: Hash)
    ensures Copied(h) == h
  {
    assert h[..64] == h;
  }

  /** Storing and rebuilding, before and after the expiry. */
  lemma StoredAndRebuilt(now: Bearer.Instant, service: Str, c: AuthContext, firing: AuthContext)
    requires c.authMethod == OAUTH2 && c.bearer.Some?
    ensures NewAuthConfig(c).Config?
    ensures var bt := c.bearer.value;
            Rebuilt(now, service, firing, NewAuthConfig(c).config)
            == WebhookAuth(now, service, firing, c.tokenHash, bt.grants,
                           if bt.clientID != [] then Some(bt.clientID) else None, Bearer.TimeOf(bt.expires))
  {
    Hex.RoundTrip(c.tokenHash);
    CopiedWhole(c.tokenHash);
  }

  /**
   * A stored OAuth 2.0 authority that has not expired is rebuilt with the same token hash and client,
   * whoever fires the webhook, and reads exactly what the original reads, and writes nothing.
   */
  lemma WebhookKeepsReadAuthority(now: Bearer.Instant, service: Str, c: AuthContext, firing: AuthContext,
                                  scope: Str, kind: Str)
    requires c.authMethod == OAUTH2 && c.bearer.Some?
    requires Grants.Decoded(service, c.bearer.value.grants) == Some(c.grants)
    requires !Bearer.After(now, Bearer.TimeOf(c.bearer.value.expires))
    requires kind in {Grants.RO, Grants.RW}
    ensures NewAuthConfig(c).Config?
    ensures var r := Rebuilt(now, service, firing, NewAuthConfig(c).config);
            && r.Context? && Built(r.ctx) && r.ctx.authMethod == WEBHOOK && r.ctx.user == firing.user
            && r.ctx.tokenHash == c.tokenHash
            && r.ctx.bearer.value.clientID == c.bearer.value.clientID
            && (AccessTo(r.ctx, scope, kind) == Admit <==> kind == Grants.RO && AccessTo(c, scope, Grants.RO) == Admit)
            && Private(r.ctx) == Internal(r.ctx) == AnonInternal(r.ctx) == Deny
  {
    StoredAndRebuilt(now, service, c, firing);
    Grants.ReadOnlyRemovesWrites(c.grants, scope);
  }

  /**
   * Which stored configurations panic when they are executed: those of another method, or without hash,
   * grants or expiry, or whose hash is no hexadecimal text; and, before the expiry, those whose grants
   * cannot be read. What is rebuilt is the firing context, with a token that says the stored client alone.
   */
  lemma RebuiltExactly(now: Bearer.Instant, service: Str, firing: AuthContext, a: AuthConfig)
    ensures var r := Rebuilt(now, service, firing, a);
            var readable := a.authMethod.OAUTH2? && a.tokenHash.Some? && a.grants.Some? && a.expires.Some?
                            && Hex.Decode(a.tokenHash.value).Some?;
            && (r.Expired? <==> readable && Bearer.After(now, a.expires.value))
            && (r.ExecPanics? <==> !readable || (!Bearer.After(now, a.expires.value)
                                                 && Grants.Decoded(service, a.grants.value).None?))
            && (r.Context? ==>
                  && r.ctx.user == firing.user && r.ctx.internal == firing.internal && r.ctx.authMethod == WEBHOOK
                  && r.ctx.bearer == Some(Bearer.BearerToken(
                                            0, 0, [], if a.clientID.Some? then a.clientID.value else [], []))
                  && r.ctx.grants.readOnly
                  && Some(r.ctx.grants.(readOnly := false)) == Grants.Decoded(service, a.grants.value)
                  && forall j :: 0 <= j < 64 ==>
                       var hash := Hex.Decode(a.tokenHash.value).value;
                       r.ctx.tokenHash[j] == if j < |hash| then hash[j] else 0)
  {
    var r := Rebuilt(now, service, firing, a);
    if r.Context? {
      CopiedBytes(Hex.Decode(a.tokenHash.value).value);
      var decoded := Grants.Decoded(service, a.grants.value).value;
      assert decoded.(readOnly := true).(readOnly := false) == decoded;
    }
  }

  /** An authority is rebuilt exactly as long as its token would be accepted for its time. */
  lemma RebuiltUntilExpiry(now: Bearer.Instant, service: Str, c: AuthContext, firing: AuthContext)
    requires c.authMethod == OAUTH2 && c.bearer.Some?
    requires Grants.Decoded(service, c.bearer.value.grants).Some?
    ensures var r := Rebuilt(now, service, firing, NewAuthConfig(c).config);
            && (r.Context? <==> !Bearer.After(now, Bearer.TimeOf(c.bearer.value.expires)))
            && (r.Expired? <==> Bearer.After(now, Bearer.TimeOf(c.bearer.value.expires)))
  {
    StoredAndRebuilt(now, service, c, firing);
  }

  /**
   * End to end: the holder of an issued token stores a webhook; while the token lives, each delivery
   * runs with that token's hash and client and exactly its read access.
   */
  lemma ServedTokenStoresItsAuthority(req: Request, env: Env, word: Str, bt: Bearer.BearerToken,
                                      later: Bearer.Instant, firing: AuthContext, scope: Str)
    requires Guarded(req.path) && req.cookie.None?
    requires Lower(word) == BEARER && Bearer.GoToken(bt)
    requires req.authorization == word + [SPACE] + Bearer.Encode(env.world.mac, bt)
    ensures var rs := Replies(req, env);
            && |rs| == 1
            && (rs[0].Next? && !Bearer.After(later, Bearer.TimeOf(bt.expires)) ==>
                  var c := rs[0].ctx;
                  && NewAuthConfig(c).Config?
                  && var r := Rebuilt(later, env.world.service, firing, NewAuthConfig(c).config);
                     && r.Context?
                     && r.ctx.tokenHash == env.sha512(Bearer.Encode(env.world.mac, bt))
                     && r.ctx.bearer.value.clientID == bt.clientID
                     && (AccessTo(r.ctx, scope, Grants.RO) == Admit <==> AccessTo(c, scope, Grants.RO) == Admit)
                     && AccessTo(r.ctx, scope, Grants.RW) == Deny)
  {
    IssuedTokenServed(req, env, word, bt);
    var rs := Replies(req, env);
    if rs[0].Next? && !Bearer.After(later, Bearer.TimeOf(bt.expires)) {
      WebhookKeepsReadAuthority(later, env.world.service, rs[0].ctx, firing, scope, Grants.RO);
      WebhookKeepsReadAuthority(later, env.world.service, rs[0].ctx, firing, scope, Grants.RW);
    }
  }
}
