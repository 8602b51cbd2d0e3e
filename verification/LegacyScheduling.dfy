/**
 * The legacy queue schedules in two stages (webhooks/legacy.go): `Schedule` queues a planning task, and
 * that task, when its turn comes, creates the records and queues the deliveries.
 */
module LegacyScheduling {
  import opened Transactions
  import opened Delivery
  import opened DeliveryRuns
  import opened DeliveryTheorems

  /** Scheduling queues one task behind all others, for all subscriptions, and touches nothing else. */
  lemma ScheduledExactly(cfg: Config, s: State, subs: seq<nat>, stages: seq<Stage>, tx: TxEnv)
    requires cfg.kind == Legacy
    ensures var s' := Step(cfg, s, Schedule(subs, stages, tx));
            && s'.db == s.db && s'.finished == s.finished
            && s'.accepting == s.accepting && s'.crashed == s.crashed
            && s'.queue == s.queue + if !s.crashed && subs != [] && s.accepting then [Planning(subs, 0)] else []
  {
  }

  // ----- one attempt at planning

  /** The transaction ends without error: it did all its work, and its commit reports success or `ErrTxDone`. */
  ghost predicate Planned(subs: seq<nat>, stages: seq<Stage>, tx: TxEnv) {
    tx.connected && tx.begun && AllInserted(subs, stages) && tx.commit != EndFailed
  }

  lemma PlannedExactly(db: Db, subs: seq<nat>, stages: seq<Stage>, tx: TxEnv)
    ensures AfterTx(db, tx, InsertAll(subs, stages)).returned == Nil <==> Planned(subs, stages, tx)
  {
    InsertsSucceedExactly(db, subs, stages);
    assert Perform(db, InsertAll(subs, stages)) == Inserts(db, subs, stages, |subs|);
  }

  /** The deliveries of new records, numbered from `first` on. */
  function NewDeliveries(first: nat, subs: seq<nat>): seq<Task> {
    NewTasks(Ids(first, |subs|), subs)
  }

  /**
   * One dispatch of a planning task, in full. The process ends exactly when the transaction panics. Else
   * records appear exactly when the transaction does all its work and commits; tasks for them are queued,
   * in order and behind all others, exactly when it does all its work, ends without error, and the queue
   * accepts; and otherwise the task is repeated, behind all others, while attempts are left.
   */
  lemma PlanningExactly(cfg: Config, s: State, e: Event)
    requires e.Dispatch? && !s.crashed && s.queue != [] && s.queue[0].Planning?
    ensures var task, rest, s' := s.queue[0], s.queue[1..], Step(cfg, s, e);
            var again := Planning(task.subs, task.attempts + 1);
            var planned := Planned(task.subs, e.stages, e.tx);
            && (s'.crashed <==> PlanningPanics(task.subs, e.stages, e.tx))
            && (s'.crashed ==> s'.queue == s.queue && s'.finished == s.finished)
            && s'.accepting == s.accepting
            && s'.db.records == (if planned && e.tx.commit == Done then WithNew(s.db.records, task.subs, s.db.nextId)
                                 else s.db.records)
            && (planned ==>
                  && s'.queue == rest + (if s.accepting then NewDeliveries(s.db.nextId, task.subs) else [])
                  && s'.finished == s.finished + [Finished(again, false)])
            && (!planned && !s'.crashed ==>
                  if again.attempts < cfg.planAttempts
                  then s'.queue == rest + [again] && s'.finished == s.finished
                  else s'.queue == rest && s'.finished == s.finished + [Finished(again, true)])
  {
    var task := s.queue[0];
    PlanningPanicsExactly(s.db, task.subs, e.stages, e.tx);
    PlannedExactly(s.db, task.subs, e.stages, e.tx);
    PlanTxEffect(s.db, task.subs, e.stages, e.tx);
    assert [task] + s.queue[1..] == s.queue;
  }

  // ----- from scheduling to planning, over runs

  /** How many of the events take a task from the queue. */
  function DispatchCount(events: seq<Event>): nat {
    if events == [] then 0
    else DispatchCount(events[..|events| - 1]) + if events[|events| - 1].Dispatch? then 1 else 0
  }

  /** One event takes the first task or none, and adds only behind the others. */
  lemma StepAdvances(cfg: Config, s: State, e: Event)
    requires !Step(cfg, s, e).crashed
    ensures !s.crashed
    ensures var taken := if e.Dispatch? && s.queue != [] then s.queue[1..] else s.queue;
            taken <= Step(cfg, s, e).queue
  {
  }

  /** Tasks keep their order: as many dispatches as there are tasks in front bring a task to its turn. */
  lemma {:induction false} QueueAdvances(cfg: Config, s: State, events: seq<Event>)
    requires DispatchCount(events) <= |s.queue| && !Run(cfg, s, events).crashed
    ensures s.queue[DispatchCount(events)..] <= Run(cfg, s, events).queue
  {
    if events != [] {
      var init, e := events[..|events| - 1], events[|events| - 1];
      StepAdvances(cfg, Run(cfg, s, init), e);
      QueueAdvances(cfg, s, init);
    }
  }

  /**
   * For every history: a legacy event that is scheduled while the queue accepts is planned at the dispatch
   * that follows as many others as tasks were queued before it, whatever else is scheduled in between.
   * Then every subscription has its fresh record and, in order, its own task exactly when that dispatch's
   * transaction connects, begins, inserts all and commits, for a queue that still accepts.
   */
  lemma LegacyScheduledExactly(cfg: Config, history: seq<Event>, subs: seq<nat>, st: seq<Stage>, tx: TxEnv,
                               between: seq<Event>, e: Event)
    requires cfg.kind == Legacy && subs != [] && e.Dispatch?
    requires var s := Run(cfg, EMPTY, history); s.accepting && DispatchCount(between) == |s.queue|
    requires !Run(cfg, EMPTY, history + [Schedule(subs, st, tx)] + between).crashed
    ensures var s := Run(cfg, EMPTY, history + [Schedule(subs, st, tx)] + between);
            var s' := Step(cfg, s, e);
            && s.queue != [] && s.queue[0] == Planning(subs, 0)
            && (s'.db.records == WithNew(s.db.records, subs, s.db.nextId)
                && s'.queue == s.queue[1..] + NewDeliveries(s.db.nextId, subs) <==>
                  e.tx.connected && e.tx.begun && AllInserted(subs, e.stages) && e.tx.commit == Done && s.accepting)
  {
    var before := Run(cfg, EMPTY, history);
    var scheduled := Step(cfg, before, Schedule(subs, st, tx));
    var s := Run(cfg, EMPTY, history + [Schedule(subs, st, tx)] + between);
    RunConcat(cfg, EMPTY, history + [Schedule(subs, st, tx)], between);
    RunConcat(cfg, EMPTY, history, [Schedule(subs, st, tx)]);
    RunOne(cfg, before, Schedule(subs, st, tx));
    StaysDown(cfg, scheduled, between);
    ScheduledExactly(cfg, before, subs, st, tx);
    QueueAdvances(cfg, scheduled, between);
    assert scheduled.queue[DispatchCount(between)..] == [Planning(subs, 0)];
    assert s.queue[0] == Planning(subs, 0);
    RunKeepsTies(cfg, history + [Schedule(subs, st, tx)] + between);
    PlanningExactly(cfg, s, e);
    assert s.db.nextId in WithNew(s.db.records, subs, s.db.nextId) && s.db.nextId !in s.db.records;
    assert |s.queue[1..] + NewDeliveries(s.db.nextId, subs)| == |s.queue| - 1 + |subs|;
  }

  /** A process that is down stays down. */
  lemma {:induction false} StaysDown(cfg: Config, s: State, events: seq<Event>)
    ensures s.crashed ==> Run(cfg, s, events) == s
  {
    if events != [] {
      StaysDown(cfg, s, events[..|events| - 1]);
    }
  }
}
