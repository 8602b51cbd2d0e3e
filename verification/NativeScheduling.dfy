/**
 * The native queue schedules for subscriptions with stored authorities: the callback of `schedule` and
 * `queueStage2` (webhooks/queue.go) over `Exec` (webhooks/context.go).
 */
module NativeScheduling {
  import opened Bytes
  import Bearer
  import Grants
  import opened AuthContexts
  import opened Authority
  import opened Transactions
  import opened Delivery
  import DeliveryRuns
  import DeliveryTheorems

  /**
   * A fetched subscription when its turn in the loop comes: what is stored of its creator's authority,
   * the clock, and how the rest of preparing its delivery goes once the authority is rebuilt.
   */
  datatype Turn = Turn(sub: nat, stored: AuthConfig, now: Bearer.Instant, rest: Stage)

  /** One scheduled event: the request that fires it, and the subscriptions to it. */
  datatype Firing = Firing(service: Str, auth: AuthContext, turns: seq<Turn>, tx: TxEnv)

  function StageOf(f: Firing, t: Turn): Stage {
    match Rebuilt(t.now, f.service, f.auth, t.stored)
    case ExecPanics => ExecPanicked
    case Expired => ExecFailed
    case Context(_) => t.rest
  }

  function Subscriptions(f: Firing): seq<nat> {
    seq(|f.turns|, i requires 0 <= i < |f.turns| => f.turns[i].sub)
  }

  function Stages(f: Firing): seq<Stage> {
    seq(|f.turns|, i requires 0 <= i < |f.turns| => StageOf(f, f.turns[i]))
  }

  function EventOf(f: Firing): Event {
    Schedule(Subscriptions(f), Stages(f), f.tx)
  }

  /** A turn is stored from an OAuth 2.0 context whose grants can be read. */
  predicate StoredFrom(f: Firing, t: Turn, creator: AuthContext) {
    && creator.authMethod == OAUTH2 && creator.bearer.Some?
    && Grants.Decoded(f.service, creator.bearer.value.grants).Some?
    && ConfigResult.Config(t.stored) == NewAuthConfig(creator)
  }

  predicate TokenExpired(creator: AuthContext, now: Bearer.Instant) {
    creator.bearer.Some? && Bearer.After(now, Bearer.TimeOf(creator.bearer.value.expires))
  }

  lemma StageExactly(f: Firing, t: Turn, creator: AuthContext)
    requires StoredFrom(f, t, creator)
    ensures StageOf(f, t) == if TokenExpired(creator, t.now) then ExecFailed else t.rest
  {
    RebuiltUntilExpiry(t.now, f.service, creator, f.auth);
  }

  /** A configuration of another method than OAuth 2.0 panics when its turn comes. */
  lemma OtherMethodPanics(f: Firing, t: Turn)
    requires t.stored.authMethod != OAUTH2
    ensures StageOf(f, t) == ExecPanicked
  {
    RebuiltExactly(t.now, f.service, f.auth, t.stored);
  }

  lemma ScheduleStep(cfg: Delivery.Config, s: State, f: Firing)
    requires cfg.kind == Native && !s.crashed && f.turns != []
    ensures Step(cfg, s, EventOf(f)) == AfterPlan(s, Subscriptions(f), Stages(f), f.tx).0
  {
  }

  /** One subscription that cannot be prepared leaves every subscriber of the event without a delivery. */
  lemma OneStopsAll(cfg: Delivery.Config, s: State, f: Firing, i: nat)
    requires cfg.kind == Native && i < |f.turns| && StageOf(f, f.turns[i]) != Inserted
    ensures DeliveryTheorems.NothingScheduled(s, Step(cfg, s, EventOf(f)))
  {
    if !s.crashed {
      ScheduleStep(cfg, s, f);
      var subs, stages := Subscriptions(f), Stages(f);
      assert StageAt(stages, i) != Inserted;
      InsertsSucceedExactly(s.db, subs, stages);
      assert Perform(s.db, InsertAll(subs, stages)) == Inserts(s.db, subs, stages, |subs|);
      DeliveryRuns.PlanTxEffect(s.db, subs, stages, f.tx);
    }
  }

  /**
   * Every subscriber gets a delivery exactly when no creator's token has expired at its turn, the rest
   * of preparing each delivery works, and the transaction commits for a queue that accepts; one expired
   * token leaves all of them without.
   */
  lemma ScheduledExactly(cfg: Delivery.Config, s: State, f: Firing, creators: seq<AuthContext>)
    requires cfg.kind == Native && !s.crashed && DeliveryTheorems.Sequenced(s.db)
    requires f.turns != [] && |creators| == |f.turns|
    requires forall i :: 0 <= i < |creators| ==> StoredFrom(f, f.turns[i], creators[i])
    ensures var s' := Step(cfg, s, EventOf(f));
            && (DeliveryTheorems.AllScheduled(s, s', Subscriptions(f)) <==>
                  && (forall i :: 0 <= i < |creators| ==>
                        !TokenExpired(creators[i], f.turns[i].now) && f.turns[i].rest == Inserted)
                  && f.tx.connected && f.tx.begun && f.tx.commit == Done && s.accepting)
            && ((exists i :: 0 <= i < |creators| && TokenExpired(creators[i], f.turns[i].now)) ==>
                  DeliveryTheorems.NothingScheduled(s, s'))
  {
    forall i | 0 <= i < |creators|
      ensures StageAt(Stages(f), i)
           == if TokenExpired(creators[i], f.turns[i].now) then ExecFailed else f.turns[i].rest
    {
      StageExactly(f, f.turns[i], creators[i]);
    }
    ScheduleStep(cfg, s, f);
    DeliveryTheorems.AllOrNothingExactly(s, Subscriptions(f), Stages(f), f.tx);
    if i :| 0 <= i < |creators| && TokenExpired(creators[i], f.turns[i].now) {
      assert StageAt(Stages(f), i) == StageOf(f, f.turns[i]);
      OneStopsAll(cfg, s, f, i);
    }
  }

  // ----- an expired token stays in the way

  /** A firing reaches a subscription stored from a creator, not before an instant. */
  ghost predicate Reaches(f: Firing, creator: AuthContext, since: Bearer.Instant) {
    exists i :: 0 <= i < |f.turns| && ConfigResult.Config(f.turns[i].stored) == NewAuthConfig(creator)
                && !Bearer.After(since, f.turns[i].now)
  }

  lemma ExpiredStopsAll(cfg: Delivery.Config, s: State, f: Firing, creator: AuthContext, since: Bearer.Instant)
    requires cfg.kind == Native && creator.authMethod == OAUTH2 && creator.bearer.Some?
    requires TokenExpired(creator, since) && Reaches(f, creator, since)
    ensures DeliveryTheorems.NothingScheduled(s, Step(cfg, s, EventOf(f)))
  {
    var i :| 0 <= i < |f.turns| && ConfigResult.Config(f.turns[i].stored) == NewAuthConfig(creator)
             && !Bearer.After(since, f.turns[i].now);
    StoredAndRebuilt(f.turns[i].now, f.service, creator, f.auth);
    OneStopsAll(cfg, s, f, i);
  }

  function EventsOf(fs: seq<Firing>): seq<Event> {
    seq(|fs|, i requires 0 <= i < |fs| => EventOf(fs[i]))
  }

  /**
   * From the expiry of one creator's token on, no firing that reaches that creator's subscription, by
   * whomever, schedules a delivery for anybody.
   */
  lemma {:induction false} ExpiredSilencesEvent(cfg: Delivery.Config, s: State, fs: seq<Firing>,
                                                creator: AuthContext, since: Bearer.Instant)
    requires cfg.kind == Native && creator.authMethod == OAUTH2 && creator.bearer.Some?
    requires TokenExpired(creator, since)
    requires forall k :: 0 <= k < |fs| ==> Reaches(fs[k], creator, since)
    ensures DeliveryTheorems.NothingScheduled(s, Run(cfg, s, EventsOf(fs)))
  {
    if fs != [] {
      var n := |fs| - 1;
      ExpiredSilencesEvent(cfg, s, fs[..n], creator, since);
      assert EventsOf(fs)[..n] == EventsOf(fs[..n]);
      ExpiredStopsAll(cfg, Run(cfg, s, EventsOf(fs[..n])), fs[n], creator, since);
    }
  }
}
