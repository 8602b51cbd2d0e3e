/** The request handlers of auth/middleware.go and the dispatch between them. */
module Handlers {
  import opened Bytes
  import Bearer
  import Grants
  import opened AuthContexts
  import opened OAuth2Join

  const SPACE: byte := 32

  /** The login cookie: after decryption, a JSON object with a name, if all goes well. */
  datatype Cookie = Undecryptable | BadJson | NamedUser(lookup: Lookup)

  /** The payload of internal authentication, with what the two kinds of lookup would give. */
  datatype Internal =
    | UndecryptableInternal
    | BadInternalJson
    | Payload(internal: InternalAuth, byClient: Lookup, byName: Lookup)

  /** The row of a legacy token. */
  datatype LegacyToken = LegacyToken(expires: Bearer.Instant, scopes: Str, user: User)

  /** The remote address: no IP address at all, one without a port, or one with a port. */
  datatype Address = Unparsable | BareIP | IPWithPort

  datatype Request = Request(path: Str, cookie: Option<Cookie>, authorization: Str, address: Address)

  /** Everything outside the request that its outcome depends on. */
  datatype Env = Env(
    world: World, sha512: Str -> Hash, nets: seq<bool>, internal: Internal, legacy: Option<LegacyToken>)

  // ----- specification

  /** What becomes of a user that was looked up: None goes on. */
  function UserReply(lookup: Lookup): Option<Reply> {
    if lookup == LookupFailed then Some(Error(403))
    else if lookup.user.suspended then Some(if lookup.user.notice.None? then Crash else Error(403))
    else None
  }

  function CookieReplies(cookie: Cookie): seq<Reply> {
    match cookie
    case Undecryptable => [Error(403)]
    case BadJson => [Crash]
    case NamedUser(lookup) =>
      if UserReply(lookup).Some? then [UserReply(lookup).value] else [Next(ContextFor(COOKIE, lookup.user))]
  }

  /**
   * The end of `internalAuth`, once the payload is readable. The error that an address without port
   * leaves behind is overwritten by either lookup, and answered when there is none.
   */
  function InternalOutcome(address: Address, p: Internal): Reply
    requires p.Payload?
  {
    var lookup := if p.internal.oauthClientUUID != [] then p.byClient else p.byName;
    if p.internal.oauthClientUUID == [] && p.internal.name == [] then
      if address == BareIP then Error(403)
      else Next(ContextFor(ANON_INTERNAL, NO_USER).(internal := p.internal))
    else if UserReply(lookup).Some? then UserReply(lookup).value
    else Next(ContextFor(INTERNAL, lookup.user).(internal := p.internal))
  }

  predicate MissingIDs(p: Internal)
    requires p.Payload?
  {
    p.internal.clientID == [] || p.internal.nodeID == []
  }

  /** A missing identifier is answered with an error, but the request is handled all the same. */
  function InternalReplies(address: Address, env: Env): seq<Reply> {
    if address == Unparsable then [Crash]
    else if true !in env.nets then [Error(401)]
    else match env.internal
      case UndecryptableInternal => [Error(403)]
      case BadInternalJson => [Crash]
      case Payload(_, _, _) =>
        (if MissingIDs(env.internal) then [Error(403)] else []) + [InternalOutcome(address, env.internal)]
  }

  /** An unknown token is answered twice: no row leaves the expiry at the zero time and the scopes empty. */
  function LegacyReplies(env: Env): seq<Reply> {
    if env.legacy.None? then [Error(403), Error(403)]
    else
      var row := env.legacy.value;
      if Bearer.After(env.world.now, row.expires) then [Error(403)]
      else if row.user.suspended then [if row.user.notice.None? then Crash else Error(403)]
      else if row.scopes != ALL_SCOPES then [Error(403)]
      else [Next(ContextFor(OAUTH_LEGACY, row.user))]
  }

  const ALL_SCOPES: Str := [42]  // "*"

  const BEARER: Str := [98, 101, 97, 114, 101, 114]
  const INTERNAL_SCHEME: Str := [105, 110, 116, 101, 114, 110, 97, 108]

  function Lower(s: Str): (r: Str)
    ensures |r| == |s|
  {
    if s == [] then [] else [if 65 <= s[0] <= 90 then s[0] + 32 else s[0]] + Lower(s[1..])
  }

  /** `strings.SplitN(s, " ", 2)`; None when there is no space. */
  function SplitOnce(s: Str): Option<(Str, Str)> {
    if s == [] then None
    else if s[0] == SPACE then Some(([], s[1..]))
    else
      var r := SplitOnce(s[1..]);
      if r.None? then None else Some(([s[0]] + r.value.0, r.value.1))
  }

  /** The paths that need authentication. */
  predicate Guarded(path: Str) {
    && Ascii("/query") <= path
    && path != Ascii("/query/metrics")
    && path != Ascii("/query/api-meta.json")
    && !(Ascii("/query/external/") <= path)
  }

  function BearerReplies(token: Str, env: Env): seq<Reply> {
    if Bearer.MatchesOAuth2(token) then [Verdict(env.world, token, env.sha512(token))]
    else if Bearer.MatchesLegacy(token) then LegacyReplies(env)
    else [Error(400)]
  }

  function Replies(req: Request, env: Env): seq<Reply> {
    if !Guarded(req.path) then [NextOpen]
    else if req.cookie.Some? then CookieReplies(req.cookie.value)
    else if req.authorization == [] then [Error(401)]
    else
      var z := SplitOnce(req.authorization);
      if z.None? then [Error(400)]
      else if Lower(z.value.0) == BEARER then BearerReplies(z.value.1, env)
      else if Lower(z.value.0) == INTERNAL_SCHEME then InternalReplies(req.address, env)
      else [Error(400)]
  }

  // ----- the code

  class Exchange {
    var replies: seq<Reply>

    constructor ()
      ensures replies == []
    {
      replies := [];
    }

    method Reply(r: Reply)
      modifies this
      ensures replies == old(replies) + [r]
    {
      replies := replies + [r];
    }

    method CookieAuth(cookie: Cookie)
      modifies this
      ensures replies == old(replies) + CookieReplies(cookie)
    {
      match cookie {
        case Undecryptable => Reply(Error(403));
        case BadJson => Reply(Crash);
        case NamedUser(lookup) =>
          var refusal := UserReply(lookup);
          if refusal.Some? {
            Reply(refusal.value);
            return;
          }
          var auth := ContextFor(Unset, lookup.user);
          auth := auth.(authMethod := COOKIE);
          Reply(Next(auth));
      }
    }

    method InternalAuth(address: Address, env: Env)
      modifies this
      ensures replies == old(replies) + InternalReplies(address, env)
    {
      if address == Unparsable {
        Reply(Crash);
        return;
      }
      var ok := false;
      for i := 0 to |env.nets|
        invariant ok <==> true in env.nets[..i]
      {
        ok := ok || env.nets[i];
        if ok {
          assert env.nets[i] in env.nets;
          break;
        }
      }
      if !ok {
        Reply(Error(401));
        return;
      }
      match env.internal {
        case UndecryptableInternal => Reply(Error(403));
        case BadInternalJson => Reply(Crash);
        case Payload(internal, byClient, byName) =>
          if internal.clientID == [] || internal.nodeID == [] {
            Reply(Error(403));  // and on it goes
          }
          var auth := ContextFor(Unset, NO_USER);
          var refusal := if address == BareIP then Some(Error(403)) else None;  // the error of splitting the address
          if internal.oauthClientUUID != [] {
            refusal := UserReply(byClient);
            if refusal.None? {
              auth := auth.(user := byClient.user, authMethod := INTERNAL);
            }
          } else if internal.name != [] {
            refusal := UserReply(byName);
            if refusal.None? {
              auth := auth.(user := byName.user, authMethod := INTERNAL);
            }
          } else {
            auth := auth.(authMethod := ANON_INTERNAL);
          }
          if refusal.Some? {
            Reply(refusal.value);
            return;
          }
          auth := auth.(internal := internal);
          Reply(Next(auth));
      }
    }

    method LegacyOAuth(env: Env)
      modifies this
      ensures replies == old(replies) + LegacyReplies(env)
    {
      var auth, expires, scopes := ContextFor(Unset, NO_USER), Bearer.Instant(0, 0), [];
      if env.legacy.None? {
        Reply(Error(403));
      } else {
        auth := auth.(user := env.legacy.value.user);
        expires, scopes := env.legacy.value.expires, env.legacy.value.scopes;
      }
      if Bearer.After(env.world.now, expires) {
        Reply(Error(403));
        return;
      }
      if auth.user.suspended {
        Reply(if auth.user.notice.None? then Crash else Error(403));
        return;
      }
      if scopes != ALL_SCOPES {
        Reply(Error(403));
        return;
      }
      Reply(Next(auth.(authMethod := OAUTH_LEGACY)));
    }

    method Serve(req: Request, env: Env)
      modifies this
      ensures replies == old(replies) + Replies(req, env)
    {
      if !Guarded(req.path) {
        Reply(NextOpen);
        return;
      }
      if req.cookie.Some? {
        CookieAuth(req.cookie.value);
        return;
      }
      if req.authorization == [] {
        Reply(Error(401));
        return;
      }
      var z := SplitOnce(req.authorization);
      if z.None? {
        Reply(Error(400));
        return;
      }
      var scheme, token := Lower(z.value.0), z.value.1;
      if scheme == BEARER {
        if Bearer.MatchesOAuth2(token) {
          var answers, _ := OAuth2(env.world, token, env.sha512(token));
          replies := replies + answers;
          return;
        }
        if Bearer.MatchesLegacy(token) {
          LegacyOAuth(env);
          return;
        }
        Reply(Error(400));
      } else if scheme == INTERNAL_SCHEME {
        InternalAuth(req.address, env);
      } else {
        Reply(Error(400));
      }
    }
  }

  // ----- what every request gets

  /** A context that the middleware lets through. */
  predicate Admitted(c: AuthContext) {
    && c.authMethod in {COOKIE, INTERNAL, ANON_INTERNAL, OAUTH2, OAUTH_LEGACY}
    && !c.user.suspended
    && (c.authMethod == OAUTH2 <==> c.bearer.Some?)
  }

  predicate Active(lookup: Lookup) {
    lookup.Found? && !lookup.user.suspended
  }

  /** A context that says who the user is and how that is known, and nothing more. */
  ghost predicate OnlyUser(c: AuthContext, m: Method, user: User) {
    && c.authMethod == m && c.user == user
    && c.internal == InternalAuth([], [], [], []) && c.bearer.None?
    && c.grants == Grants.Grants(false, false, map[], [])
    && forall i :: 0 <= i < 64 ==> c.tokenHash[i] == 0
  }

  lemma {:induction false} ZerosAt(n: nat, i: nat)
    requires i < n
    ensures Zeros(n)[i] == 0
  {
    if i > 0 {
      ZerosAt(n - 1, i - 1);
    }
  }

  lemma ContextForOnlyUser(m: Method, user: User)
    ensures OnlyUser(ContextFor(m, user), m, user)
  {
    forall i | 0 <= i < 64
      ensures Zeros(64)[i] == 0
    {
      ZerosAt(64, i);
    }
  }

  /** A suspended user whose row holds no notice, which the error message is made of. */
  predicate Unexplained(user: User) {
    user.suspended && user.notice.None?
  }

  /**
   * A cookie lets a request through exactly when it names a user who is found and not suspended, as that
   * user and no more; it panics exactly on bad JSON and a suspension without notice; else 403.
   */
  lemma CookieGoesOnExactly(cookie: Cookie)
    ensures var r := CookieReplies(cookie);
            && |r| == 1
            && (r[0].Next? <==> cookie.NamedUser? && Active(cookie.lookup))
            && (r[0].Next? ==> OnlyUser(r[0].ctx, COOKIE, cookie.lookup.user))
            && (r[0].Crash? <==>
                  || cookie.BadJson?
                  || (cookie.NamedUser? && cookie.lookup.Found? && Unexplained(cookie.lookup.user)))
            && (!r[0].Next? && !r[0].Crash? ==> r[0] == Error(403))
  {
    if cookie.NamedUser? && Active(cookie.lookup) {
      ContextForOnlyUser(COOKIE, cookie.lookup.user);
    }
  }

  /**
   * A legacy token lets a request through exactly when it is known, in time, unrestricted and its user
   * active, as that user and no more; it panics exactly on a suspension without notice, and is answered
   * 403 otherwise, twice if it is unknown.
   */
  lemma LegacyGoesOnExactly(env: Env)
    ensures var r, row := LegacyReplies(env), env.legacy;
            && (r[|r| - 1].Next? <==> row.Some? && !Bearer.After(env.world.now, row.value.expires)
                                       && Active(Found(row.value.user)) && row.value.scopes == [42])
            && (r[|r| - 1].Next? ==> OnlyUser(r[|r| - 1].ctx, OAUTH_LEGACY, row.value.user))
            && (r[|r| - 1].Crash? <==> row.Some? && !Bearer.After(env.world.now, row.value.expires)
                                        && Unexplained(row.value.user))
            && (!r[|r| - 1].Next? && !r[|r| - 1].Crash? ==> r[|r| - 1] == Error(403))
            && 1 <= |r| <= 2 && (|r| == 2 <==> row.None?) && (|r| == 2 ==> r[0] == Error(403))
  {
    if env.legacy.Some? {
      ContextForOnlyUser(OAUTH_LEGACY, env.legacy.value.user);
    }
  }

  predicate Anonymous(i: InternalAuth) {
    i.oauthClientUUID == [] && i.name == []
  }

  /** The lookup that a payload calls for: of an OAuth client's owner, else of a name, else none. */
  function LookupFor(p: Internal): Option<Lookup>
    requires p.Payload?
  {
    if |p.internal.oauthClientUUID| > 0 then Some(p.byClient)
    else if |p.internal.name| > 0 then Some(p.byName)
    else None
  }

  /** A payload has come from an internal network and could be read. */
  predicate Received(address: Address, env: Env) {
    !address.Unparsable? && (exists i :: 0 <= i < |env.nets| && env.nets[i]) && env.internal.Payload?
  }

  lemma ReceivedReplies(address: Address, env: Env)
    requires Received(address, env)
    ensures var out := InternalOutcome(address, env.internal);
            InternalReplies(address, env) == if MissingIDs(env.internal) then [Error(403), out] else [out]
  {
  }

  /**
   * Internal authentication lets a request through exactly when it comes from an internal network with a
   * readable payload, and the user it stands for is active, or it stands for nobody and the address has
   * a port; the client and node identifiers play no part. It goes on as the user that was looked up, and
   * as nobody if there was no lookup.
   */
  lemma InternalGoesOnExactly(address: Address, env: Env)
    ensures var r, p := InternalReplies(address, env), env.internal;
            && (r[|r| - 1].Next? <==>
                  && Received(address, env)
                  && (LookupFor(p).Some? ==> Active(LookupFor(p).value))
                  && (LookupFor(p).None? ==> address == IPWithPort))
            && (r[|r| - 1].Next? ==>
                  var c := r[|r| - 1].ctx;
                  && c.internal == p.internal
                  && OnlyUser(c.(internal := InternalAuth([], [], [], [])),
                              if LookupFor(p).Some? then INTERNAL else ANON_INTERNAL,
                              if LookupFor(p).Some? then LookupFor(p).value.user else User([], false, None)))
  {
    if Received(address, env) {
      ReceivedReplies(address, env);
      ContextForOnlyUser(ANON_INTERNAL, NO_USER);
      if LookupFor(env.internal).Some? && Active(LookupFor(env.internal).value) {
        ContextForOnlyUser(INTERNAL, LookupFor(env.internal).value.user);
      }
    }
  }

  /**
   * What internal authentication answers otherwise: 401 exactly to addresses outside the networks; a panic
   * exactly on an address that is none, on bad JSON and on a suspension without notice; else 403. A first
   * 403 precedes the answer exactly when the payload was received and lacks an identifier.
   */
  lemma InternalRefusesExactly(address: Address, env: Env)
    ensures var r, p := InternalReplies(address, env), env.internal;
            var inside := !address.Unparsable? && exists i :: 0 <= i < |env.nets| && env.nets[i];
            var last := r[|r| - 1];
            && (last == Error(401) <==> !address.Unparsable? && !inside)
            && (last.Crash? <==>
                  || address.Unparsable?
                  || (inside && p.BadInternalJson?)
                  || (inside && p.Payload? && LookupFor(p).Some?
                      && LookupFor(p).value.Found? && Unexplained(LookupFor(p).value.user)))
            && (!last.Next? && !last.Crash? && last != Error(401) ==> last == Error(403))
            && 1 <= |r| <= 2 && (|r| == 2 ==> r[0] == Error(403))
            && (|r| == 2 <==> Received(address, env) && (|p.internal.clientID| == 0 || |p.internal.nodeID| == 0))
  {
    if Received(address, env) {
      ReceivedReplies(address, env);
    }
  }

  /** A payload that names neither a client nor a node is answered 403 and then handled. */
  lemma UnidentifiedPayloadHandled(env: Env)
    requires env.nets == [true] && env.internal == Payload(NO_INTERNAL, LookupFailed, LookupFailed)
    ensures InternalReplies(IPWithPort, env) == [Error(403), Next(ContextFor(ANON_INTERNAL, NO_USER))]
  {
  }

  /** Anonymous internal authentication from an address without port is answered 403, and goes no further. */
  lemma BareAddressRefused(env: Env)
    requires true in env.nets && env.internal.Payload? && Anonymous(env.internal.internal)
    ensures InternalReplies(BareIP, env) == if MissingIDs(env.internal) then [Error(403), Error(403)] else [Error(403)]
  {
  }

  /** A suspended user without a suspension notice: the notice is dereferenced all the same. */
  lemma SuspendedWithoutNoticePanics(user: User)
    requires user.suspended && user.notice.None?
    ensures CookieReplies(NamedUser(Found(user))) == [Crash]
  {
  }

  /** An unknown legacy token is answered twice. */
  lemma UnknownTokenAnsweredTwice(env: Env)
    requires env.legacy.None?
    ensures LegacyReplies(env) == [Error(403), Error(403)]
  {
  }

  /**
   * At least one reply, the next handler at most once and last, and then with an admitted context;
   * an error comes before it exactly when internal authentication lacks an identifier.
   */
  predicate WellAnswered(rs: seq<Reply>) {
    && 1 <= |rs| <= 2
    && (|rs| == 2 ==> rs[0] == Error(403))
    && !rs[|rs| - 1].NextOpen?
    && (rs[|rs| - 1].Next? ==>
          var c := rs[|rs| - 1].ctx;
          && Admitted(c)
          && (|rs| == 2 <==> c.authMethod in {INTERNAL, ANON_INTERNAL}
                             && (c.internal.clientID == [] || c.internal.nodeID == [])))
  }

  lemma InternalNextAdmitted(address: Address, p: Internal)
    requires p.Payload?
    ensures var r := InternalOutcome(address, p); r.Next? ==> Admitted(r.ctx) && r.ctx.internal == p.internal
  {
  }

  lemma InternalWellAnswered(address: Address, env: Env)
    ensures WellAnswered(InternalReplies(address, env))
  {
    if address != Unparsable && true in env.nets && env.internal.Payload? {
      var r := InternalOutcome(address, env.internal);
      InternalNextAdmitted(address, env.internal);
      assert InternalReplies(address, env) == if MissingIDs(env.internal) then [Error(403), r] else [r];
    }
  }

  lemma VerdictAdmits(w: World, token: Str, hash: Hash)
    ensures WellAnswered([Verdict(w, token, hash)])
  {
    GoesOnExactly(w, token, hash);
  }

  lemma BearerWellAnswered(token: Str, env: Env)
    ensures WellAnswered(BearerReplies(token, env))
  {
    if Bearer.MatchesOAuth2(token) {
      VerdictAdmits(env.world, token, env.sha512(token));
    }
  }

  /** Every guarded request is well answered, whatever the outside world does. */
  lemma GuardedRequests(req: Request, env: Env)
    requires Guarded(req.path)
    ensures WellAnswered(Replies(req, env))
  {
    var z := SplitOnce(req.authorization);
    if req.cookie.None? && z.Some? {
      InternalWellAnswered(req.address, env);
      BearerWellAnswered(z.value.1, env);
    }
  }

  lemma {:induction false} SplitOnceAt(word: Str, rest: Str)
    requires SPACE !in word
    ensures SplitOnce(word + [SPACE] + rest) == Some((word, rest))
  {
    var s := word + [SPACE] + rest;
    if word == [] {
      assert s == [SPACE] + rest;
    } else {
      assert word[0] in word;
      SplitOnceAt(word[1..], rest);
      assert s[1..] == word[1..] + [SPACE] + rest;
      assert word == [word[0]] + word[1..];
    }
  }

  lemma {:induction false} LowerNoSpace(s: Str)
    requires SPACE !in Lower(s)
    ensures SPACE !in s
  {
    if s != [] {
      assert Lower(s) == [Lower(s)[0]] + Lower(s[1..]);
      LowerNoSpace(s[1..]);
      assert Lower(s)[0] in Lower(s);
      assert s == [s[0]] + s[1..];
    }
  }

  // ----- which handler a request gets

  /** A path begins with the text. */
  predicate Under(path: Str, text: string) {
    |path| >= |text| && forall i :: 0 <= i < |text| ==> path[i] as char == text[i]
  }

  predicate Is(path: Str, text: string) {
    Under(path, text) && |path| == |text|
  }

  /** A request goes on without authentication exactly outside `/query`, and on three exceptions below it. */
  lemma OpenExactly(req: Request, env: Env)
    ensures Replies(req, env) == [NextOpen] <==>
              || !Under(req.path, "/query")
              || Is(req.path, "/query/metrics") || Is(req.path, "/query/api-meta.json")
              || Under(req.path, "/query/external/")
  {
    PathTexts(req.path);
    if Guarded(req.path) {
      GuardedRequests(req, env);
    }
  }

  lemma PathIs(path: Str, text: string)
    requires forall i :: 0 <= i < |text| ==> (text[i] as int) < 256
    ensures Ascii(text) <= path <==> Under(path, text)
    ensures path == Ascii(text) <==> Is(path, text)
  {
    if Under(path, text) {
      forall i | 0 <= i < |text|
        ensures Ascii(text)[i] == path[i]
      {
        assert path[i] as char == text[i];
      }
      assert path[..|text|] == Ascii(text);
    }
  }

  lemma PathTexts(path: Str)
    ensures Guarded(path) <==>
              && Under(path, "/query")
              && !Is(path, "/query/metrics") && !Is(path, "/query/api-meta.json")
              && !Under(path, "/query/external/")
  {
    PathIs(path, "/query");
    PathIs(path, "/query/metrics");
    PathIs(path, "/query/api-meta.json");
    PathIs(path, "/query/external/");
  }

  /** The word, in any capitalization. */
  predicate IsWord(s: Str, word: string) {
    && |s| == |word|
    && forall i :: 0 <= i < |s| ==> s[i] as char == word[i] || (65 <= s[i] <= 90 && (s[i] + 32) as char == word[i])
  }

  lemma {:induction false} LowerAt(s: Str, i: nat)
    requires i < |s|
    ensures Lower(s)[i] == if 65 <= s[i] <= 90 then s[i] + 32 else s[i]
  {
    if i > 0 {
      LowerAt(s[1..], i - 1);
    }
  }

  lemma LowerExactly(s: Str, word: string)
    requires forall i :: 0 <= i < |word| ==> 'a' <= word[i] <= 'z'
    ensures Lower(s) == Ascii(word) <==> IsWord(s, word)
  {
    forall i | 0 <= i < |s|
      ensures Lower(s)[i] == if 65 <= s[i] <= 90 then s[i] + 32 else s[i]
    {
      LowerAt(s, i);
    }
  }

  /**
   * A request that needs authentication: its cookie decides, whatever else it carries; without one, a
   * missing header is answered 401, and a header without a space 400.
   */
  lemma CookieBeforeHeader(req: Request, env: Env)
    requires Guarded(req.path)
    ensures req.cookie.Some? ==> Replies(req, env) == CookieReplies(req.cookie.value)
    ensures req.cookie.None? && req.authorization == [] ==> Replies(req, env) == [Error(401)]
    ensures req.cookie.None? && req.authorization != [] && 32 !in req.authorization ==>
              Replies(req, env) == [Error(400)]
  {
    if 32 !in req.authorization {
      NoSpaceNoSplit(req.authorization);
    }
  }

  lemma {:induction false} NoSpaceNoSplit(s: Str)
    requires SPACE !in s
    ensures SplitOnce(s).None?
  {
    if s != [] {
      assert s[0] in s;
      NoSpaceNoSplit(s[1..]);
    }
  }

  /**
   * Without a cookie, the word before the first space decides, in any capitalization: `bearer` takes what
   * follows by its form to the current or to the legacy tokens, `internal` takes it to internal
   * authentication, and anything else is answered 400.
   */
  lemma SchemesExactly(req: Request, env: Env, word: Str, rest: Str)
    requires Guarded(req.path) && req.cookie.None?
    requires 32 !in word && req.authorization == word + [32] + rest
    ensures var r := Replies(req, env);
            && (IsWord(word, "bearer") && Bearer.MatchesOAuth2(rest) ==>
                  r == [Verdict(env.world, rest, env.sha512(rest))])
            && (IsWord(word, "bearer") && Bearer.MatchesLegacy(rest) ==> r == LegacyReplies(env))
            && (IsWord(word, "bearer") && !Bearer.MatchesOAuth2(rest) && !Bearer.MatchesLegacy(rest) ==>
                  r == [Error(400)])
            && (IsWord(word, "internal") ==> r == InternalReplies(req.address, env))
            && (!IsWord(word, "bearer") && !IsWord(word, "internal") ==> r == [Error(400)])
  {
    SplitOnceAt(word, rest);
    assert BEARER == Ascii("bearer") && INTERNAL_SCHEME == Ascii("internal");
    LowerExactly(word, "bearer");
    LowerExactly(word, "internal");
  }

  lemma IssuedTokenDispatched(req: Request, env: Env, word: Str, bt: Bearer.BearerToken)
    requires Guarded(req.path) && req.cookie.None? && Lower(word) == BEARER
    requires req.authorization == word + [SPACE] + Bearer.Encode(env.world.mac, bt)
    ensures var token := Bearer.Encode(env.world.mac, bt);
            Replies(req, env) == [Verdict(env.world, token, env.sha512(token))]
  {
    LowerNoSpace(word);
    SplitOnceAt(word, Bearer.Encode(env.world.mac, bt));
    Bearer.EncodedTokenIsOAuth2(env.world.mac, bt);
  }

  /**
   * From issuing to serving: a request that carries an encoded token, under any capitalization of
   * "Bearer", gets exactly one reply; it goes on, as the holder of that very token, exactly when the
   * token has version 0, valid UTF-8 and time left, both lookups succeed, the token is live, its user
   * is not suspended and its grants can be read.
   */
  lemma IssuedTokenServed(req: Request, env: Env, word: Str, bt: Bearer.BearerToken)
    requires Guarded(req.path) && req.cookie.None?
    requires Lower(word) == BEARER && Bearer.GoToken(bt)
    requires req.authorization == word + [SPACE] + Bearer.Encode(env.world.mac, bt)
    ensures var w, rs := env.world, Replies(req, env);
            && |rs| == 1
            && (rs[0].Next? <==>
                  && bt.version == 0 && Bearer.Utf8Token(bt)
                  && !Bearer.After(w.now, Bearer.TimeOf(bt.expires))
                  && w.lookup.Found? && w.revocation == Live && !w.lookup.user.suspended
                  && Grants.Decoded(w.service, bt.grants).Some?)
            && (rs[0].Next? ==>
                  && rs[0].ctx.authMethod == OAUTH2 && rs[0].ctx.bearer == Some(bt)
                  && rs[0].ctx.user == w.lookup.user
                  && Some(rs[0].ctx.grants) == Grants.Decoded(w.service, bt.grants)
                  && rs[0].ctx.tokenHash == env.sha512(Bearer.Encode(w.mac, bt)))
  {
    var token := Bearer.Encode(env.world.mac, bt);
    IssuedTokenDispatched(req, env, word, bt);
    Bearer.TokenRoundTrip(env.world.mac, env.world.now, bt);
    GoesOnExactly(env.world, token, env.sha512(token));
  }
}
