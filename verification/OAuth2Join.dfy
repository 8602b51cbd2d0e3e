/**
 * `OAuth2` of auth/middleware.go: two lookups in two goroutines, joined by a wait group. Every way
 * of interleaving the three threads is allowed.
 */
module OAuth2Join {
  import opened Bytes
  import Bearer
  import Grants
  import opened AuthContexts

  /** What the outside world answers during one request. */
  datatype World = World(
    mac: Bearer.Mac, now: Bearer.Instant, service: Str, lookup: Lookup, revocation: Revocation)

  /** The reply that the token and the two answers call for. */
  function Verdict(w: World, token: Str, hash: Hash): Reply {
    var bt := Bearer.Decode(w.mac, w.now, token);
    if bt.None? then Error(403)
    else if w.lookup == LookupFailed || w.revocation == RevocationFailed then Error(500)
    else if w.revocation == Revoked then Error(403)
    else if w.lookup.user.suspended then (if w.lookup.user.notice.None? then Crash else Error(403))
    else
      var grants := Grants.Decoded(w.service, bt.value.grants);
      if grants.None? then Crash
      else Next(AuthContext(OAUTH2, w.lookup.user, NO_INTERNAL, bt, grants.value, hash))
  }

  /** Accesses to the variables that the threads share: `auth`, and the counters `res` and `tempErr`. */
  datatype Access = WritesAuth | AddsToCounter | ReadsCounters | ReadsAuth

  predicate IsRead(a: Access) {
    a.ReadsCounters? || a.ReadsAuth?
  }

  /** Once something has been read, nothing is written any more. */
  ghost predicate ReadsAfterWrites(log: seq<Access>) {
    forall i, j :: 0 <= i < j < |log| && IsRead(log[i]) ==> IsRead(log[j])
  }

  /** Nothing has been read yet. */
  ghost predicate NoReads(log: seq<Access>) {
    forall i :: 0 <= i < |log| ==> !IsRead(log[i])
  }

  lemma LogAccess(log: seq<Access>, a: Access)
    requires ReadsAfterWrites(log) && (NoReads(log) || IsRead(a))
    ensures ReadsAfterWrites(log + [a])
    ensures NoReads(log) && !IsRead(a) ==> NoReads(log + [a])
    ensures a in log + [a] && forall b :: b in log ==> b in log + [a]
  {
    var longer := log + [a];
    forall i, j | 0 <= i < j < |longer| && IsRead(longer[i])
      ensures IsRead(longer[j])
    {
    }
    assert longer[|log|] == a;
  }

  /** The end of the main thread, once both lookups went well. */
  method Finish(w: World, bt: Bearer.BearerToken, user: User, hash: Hash) returns (reply: Reply)
    ensures reply ==
              if user.suspended then (if user.notice.None? then Crash else Error(403))
              else if Grants.Decoded(w.service, bt.grants).None? then Crash
              else
                var grants := Grants.Decoded(w.service, bt.grants).value;
                Next(AuthContext(OAUTH2, user, NO_INTERNAL, Some(bt), grants, hash))
  {
    if user.suspended {
      return if user.notice.None? then Crash else Error(403);
    }
    var grants := Grants.DecodeGrants(w.service, bt.grants);
    reply := if grants.None? then Crash
             else Next(AuthContext(OAUTH2, user, NO_INTERNAL, Some(bt), grants.value, hash));
  }

  /**
   * Exactly one reply, the same for every schedule, and the main thread reads what the goroutines
   * share only after both have written for the last time. The three threads take turns in any order
   * until all have ended; `at1`, `at2` and `at` say how far each has come.
   */
  method OAuth2(w: World, token: Str, hash: Hash) returns (replies: seq<Reply>, log: seq<Access>)
    ensures replies == [Verdict(w, token, hash)]
    ensures ReadsAfterWrites(log)
    ensures Bearer.Decode(w.mac, w.now, token).Some? <==> ReadsCounters in log
    ensures replies[0].Next? ==> ReadsAuth in log && WritesAuth in log
  {
    replies, log := [], [];
    var bt := Bearer.Decode(w.mac, w.now, token);
    if bt.None? {
      replies := [Error(403)];
      return;
    }
    var res, tempErr, waiting := 0, 0, 2;
    var auth := NO_USER;  // filled in field by field
    var at1, at2, at := 0, 0, 0;
    while at < 3 || at1 < 4 || at2 < 3
      invariant 0 <= at1 <= 4 && 0 <= at2 <= 3 && 0 <= at <= 3
      invariant waiting == (if at1 == 4 then 0 else 1) + (if at2 == 3 then 0 else 1)
      invariant at >= 1 ==> waiting == 0
      invariant res == (if at1 >= 3 && w.lookup.Found? then 1 else 0)
                     + (if at2 >= 2 && w.revocation == Live then 1 else 0)
      invariant tempErr == (if at1 >= 3 && w.lookup == LookupFailed then 1 else 0)
                         + (if at2 >= 2 && w.revocation == RevocationFailed then 1 else 0)
      invariant at1 >= 1 && w.lookup.Found? ==> auth.username == w.lookup.user.username
      invariant at1 >= 2 && w.lookup.Found? ==> auth == w.lookup.user && WritesAuth in log
      invariant at == 2 ==> res == 2
      invariant replies == if at == 3 then [Verdict(w, token, hash)] else []
      invariant ReadsAfterWrites(log)
      invariant at <= 1 ==> NoReads(log)
      invariant at >= 2 ==> ReadsCounters in log
      invariant at == 3 && replies[0].Next? ==> ReadsAuth in log && WritesAuth in log
      decreases 10 - at1 - at2 - at
    {
      if {
        // the first goroutine: LookupUser, a counter, Done
        case at1 == 0 =>
          if w.lookup.Found? {
            LogAccess(log, WritesAuth);
            auth, log := auth.(username := w.lookup.user.username), log + [WritesAuth];
          }
          at1 := 1;
        case at1 == 1 =>
          if w.lookup.Found? {
            LogAccess(log, WritesAuth);
            auth := auth.(suspended := w.lookup.user.suspended, notice := w.lookup.user.notice);
            log := log + [WritesAuth];
          }
          at1 := 2;
        case at1 == 2 =>
          if w.lookup == LookupFailed {
            tempErr := tempErr + 1;
          } else {
            res := res + 1;
          }
          LogAccess(log, AddsToCounter);
          at1, log := 3, log + [AddsToCounter];
        case at1 == 3 =>
          waiting, at1 := waiting - 1, 4;
        // the second goroutine: LookupTokenRevocation, a counter, Done
        case at2 == 0 =>
          at2 := 1;
        case at2 == 1 =>
          LogAccess(log, AddsToCounter);
          if w.revocation == RevocationFailed {
            tempErr, log := tempErr + 1, log + [AddsToCounter];
          } else if w.revocation == Live {
            res, log := res + 1, log + [AddsToCounter];
          }
          at2 := 2;
        case at2 == 2 =>
          waiting, at2 := waiting - 1, 3;
        // the main thread: Wait, the counters, and with both lookups good the user
        case at == 0 && waiting == 0 =>
          at := 1;
        case at == 1 =>
          LogAccess(log, ReadsCounters);
          log := log + [ReadsCounters];
          if res == 2 {
            at := 2;
          } else {
            replies, at := replies + [if tempErr != 0 then Error(500) else Error(403)], 3;
          }
        case at == 2 =>
          LogAccess(log, ReadsAuth);
          log := log + [ReadsAuth];
          var reply := Finish(w, bt.value, auth, hash);
          replies, at := replies + [reply], 3;
      }
    }
  }

  /**
   * The request goes on exactly when the token decodes, both lookups succeed, the token is not
   * revoked, the user is not suspended and the token's grants can be read. It is answered 500
   * exactly when the token decodes and a lookup fails, it panics exactly on unreadable grants or a
   * suspension without notice, and it is answered 403 otherwise.
   */
  lemma GoesOnExactly(w: World, token: Str, hash: Hash)
    ensures var bt, v := Bearer.Decode(w.mac, w.now, token), Verdict(w, token, hash);
            && (v.Next? <==> bt.Some? && w.lookup.Found? && w.revocation == Live && !w.lookup.user.suspended
                              && Grants.Decoded(w.service, bt.value.grants).Some?)
            && (v == Error(500) <==> bt.Some? && (w.lookup == LookupFailed || w.revocation == RevocationFailed))
            && (v.Next? ==> v.ctx.authMethod == OAUTH2 && v.ctx.bearer == bt && v.ctx.tokenHash == hash
                            && v.ctx.user == w.lookup.user && v.ctx.internal == InternalAuth([], [], [], [])
                            && Some(v.ctx.grants) == Grants.Decoded(w.service, bt.value.grants))
            && (v == Crash <==> bt.Some? && w.lookup.Found? && w.revocation == Live
                                && if w.lookup.user.suspended then w.lookup.user.notice.None?
                                   else Grants.Decoded(w.service, bt.value.grants).None?)
            && (v.Next? || v.Crash? || v == Error(500) || v == Error(403))
  {
  }

  const ACTIVE := User([], false, None)

  /** A live token whose grants lack a slash: every check passes, and reading the grants panics. */
  lemma UnreadableGrantsPanic(w: World, hash: Hash)
    requires w.now == Bearer.UnixInstant(0, 0) && w.lookup == Found(ACTIVE) && w.revocation == Live
    ensures var bt := Bearer.BearerToken(0, 0, [97], [], []);
            Verdict(w, Bearer.Encode(w.mac, bt), hash) == Crash
  {
    var bt := Bearer.BearerToken(0, 0, [97], [], []);
    Bearer.AsciiIsUtf8(97);
    Bearer.TokenRoundTrip(w.mac, w.now, bt);
    Grants.LoneLetterPanics(w.service);
    GoesOnExactly(w, Bearer.Encode(w.mac, bt), hash);
  }
}
