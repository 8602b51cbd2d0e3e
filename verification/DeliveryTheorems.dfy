/** The guarantees of the webhook queues: bookkeeping, drainage, atomic scheduling and exact retries. */
module DeliveryTheorems {
  import opened Arithmetic
  import opened Bytes
  import opened Transactions
  import opened Delivery
  import opened DeliveryRuns

  // ----- every delivery is tied to the record of its own subscription

  ghost predicate Sequenced(db: Db) {
    forall id :: id in db.records ==> id < db.nextId
  }

  /** A delivery's identifier has been given out, and its record, when there is one, is its subscription's. */
  predicate OwnRecord(db: Db, t: Task) {
    t.Delivery? ==> t.id < db.nextId && (t.id in db.records ==> db.records[t.id].subscription == t.sub)
  }

  ghost predicate Tied(s: State) {
    && Sequenced(s.db)
    && (forall i :: 0 <= i < |s.queue| ==> OwnRecord(s.db, s.queue[i]))
    && (forall i :: 0 <= i < |s.finished| ==> OwnRecord(s.db, s.finished[i].task))
  }

  /** Planning gives out new identifiers only, and creates the records of the subscriptions it queues deliveries for. */
  lemma PlanDbKeepsOwn(db: Db, subs: seq<nat>, stages: seq<Stage>, tx: TxEnv, t: Task)
    requires Sequenced(db) && OwnRecord(db, t)
    ensures var db' := AfterTx(db, tx, InsertAll(subs, stages)).db; Sequenced(db') && OwnRecord(db', t)
  {
    PlanTxEffect(db, subs, stages, tx);
  }

  lemma PlanSequenced(db: Db, subs: seq<nat>, stages: seq<Stage>, tx: TxEnv)
    requires Sequenced(db)
    ensures Sequenced(AfterTx(db, tx, InsertAll(subs, stages)).db)
  {
    PlanTxEffect(db, subs, stages, tx);
  }

  lemma NewRecordOwn(records: map<nat, Record>, subs: seq<nat>, first: nat, i: nat)
    requires i < |subs|
    ensures first + i in WithNew(records, subs, first)
    ensures WithNew(records, subs, first)[first + i] == Record(subs[i], None)
  {
  }

  lemma PlannedOwn(db: Db, subs: seq<nat>, stages: seq<Stage>, tx: TxEnv, i: nat)
    requires Sequenced(db) && AfterTx(db, tx, InsertAll(subs, stages)).returned == Nil && i < |subs|
    ensures var t := AfterTx(db, tx, InsertAll(subs, stages)); OwnRecord(t.db, Delivery(t.ids[i], subs[i], 0))
  {
    PlanTxEffect(db, subs, stages, tx);
    NewRecordOwn(db.records, subs, db.nextId, i);
    assert db.nextId + i !in db.records;
  }

  lemma PlanKeepsTies(s: State, subs: seq<nat>, stages: seq<Stage>, tx: TxEnv)
    requires Tied(s)
    ensures Tied(AfterPlan(s, subs, stages, tx).0)
  {
    PlanSequenced(s.db, subs, stages, tx);
    if AfterTx(s.db, tx, InsertAll(subs, stages)).returned == Nil {
      forall i: nat | i < |subs| {
        PlannedOwn(s.db, subs, stages, tx, i);
      }
    }
    forall t: Task | OwnRecord(s.db, t)
      ensures OwnRecord(AfterTx(s.db, tx, InsertAll(subs, stages)).db, t)
    {
      PlanDbKeepsOwn(s.db, subs, stages, tx, t);
    }
  }

  lemma SettleKeepsTies(bound: nat, s: State, task: Task, result: Result)
    requires Tied(s) && OwnRecord(s.db, task)
    ensures Tied(Settle(bound, s, task, result))
  {
  }

  lemma AttemptKeepsTies(s: State, id: nat, attempt: Attempt)
    requires Tied(s)
    ensures Tied(s.(db := AfterAttempt(s.db, id, attempt)))
  {
  }

  lemma StepKeepsTies(cfg: Config, s: State, e: Event)
    requires Tied(s)
    ensures Tied(Step(cfg, s, e))
  {
    if s.crashed || e.Shutdown? {
    } else if e.Schedule? {
      PlanKeepsTies(s, e.subs, e.stages, e.tx);
    } else if s.queue != [] {
      var task, s' := s.queue[0], s.(queue := s.queue[1..]);
      match task
      case Planning(subs, _) =>
        PlanKeepsTies(s', subs, e.stages, e.tx);
        var (planned, returned) := AfterPlan(s', subs, e.stages, e.tx);
        SettleKeepsTies(cfg.planAttempts, planned, task, PlanResult(returned));
      case Delivery(id, _, _) =>
        AttemptKeepsTies(s', id, e.attempt);
        var s2 := s'.(db := AfterAttempt(s.db, id, e.attempt));
        RespondKeepsSubscriptions(s.db, id, e.attempt, task);
        SettleKeepsTies(cfg.attempts, s2, task, ResultOf(cfg.kind, e.attempt, s.db, id));
    }
  }

  lemma RespondKeepsSubscriptions(db: Db, id: nat, attempt: Attempt, t: Task)
    requires OwnRecord(db, t)
    ensures OwnRecord(AfterAttempt(db, id, attempt), t)
  {
  }

  /** In every reachable state a queued or finished delivery that has a record has its own subscription's. */
  lemma {:induction false} RunKeepsTies(cfg: Config, events: seq<Event>)
    ensures Tied(Run(cfg, EMPTY, events))
  {
    if events != [] {
      RunKeepsTies(cfg, events[..|events| - 1]);
      StepKeepsTies(cfg, Run(cfg, EMPTY, events[..|events| - 1]), events[|events| - 1]);
    }
  }

  // ----- one record for every delivery

  /**
   * Every queued or finished delivery owns one record, that of its subscription, which nobody else
   * owns, and every record is owned.
   */
  ghost predicate OneRecordEach(s: State) {
    && (forall id :: id in Owners(s) ==> id in s.db.records && Owners(s)[id] == 1)
    && (forall id :: id in s.db.records ==> id in Owners(s))
    && Tied(s)
  }

  lemma BalancedExactly(cfg: Config, events: seq<Event>)
    ensures OneRecordEach(Run(cfg, EMPTY, events))
       <==> LostIn(cfg, EMPTY, events) == multiset{} && OrphanedIn(cfg, EMPTY, events) == multiset{}
  {
    RunKeepsBooks(cfg, events);
    RunKeepsTies(cfg, events);
    var s, lost, orphaned := Run(cfg, EMPTY, events), LostIn(cfg, EMPTY, events), OrphanedIn(cfg, EMPTY, events);
    var keys := multiset(s.db.records.Keys);
    if OneRecordEach(s) {
      forall id
        ensures id !in lost && id !in orphaned
      {
        assert (Owners(s) + orphaned)[id] == (keys + lost)[id];
      }
    } else if lost == multiset{} && orphaned == multiset{} {
      forall id
        ensures Owners(s)[id] == keys[id]
      {
        assert (Owners(s) + orphaned)[id] == (keys + lost)[id];
      }
      assert forall id :: id in Owners(s) ==> id in Owners(s) + orphaned;
      assert false;
    }
  }

  /** An event plans deliveries in a transaction that runs to its commit. */
  ghost predicate PlansCompletely(cfg: Config, s: State, e: Event) {
    var p := PlannedBy(cfg, s, e);
    && p.Some? && p.value.0 != []
    && p.value.2.connected && p.value.2.begun && AllInserted(p.value.0, p.value.1)
  }

  /**
   * An event loses records of tasks exactly when a complete planning transaction ends in `ErrTxDone`
   * while the queue accepts, and orphans records exactly when it commits after the queue has shut down.
   */
  lemma LosesExactly(cfg: Config, s: State, e: Event)
    ensures Lost(cfg, s, e) != multiset{} <==>
              PlansCompletely(cfg, s, e) && s.accepting && PlannedBy(cfg, s, e).value.2.commit == TxDone
    ensures Orphaned(cfg, s, e) != multiset{} <==>
              PlansCompletely(cfg, s, e) && !s.accepting && PlannedBy(cfg, s, e).value.2.commit == Done
  {
    var p := PlannedBy(cfg, s, e);
    if p.Some? {
      var (subs, stages, tx) := p.value;
      InsertsSucceedExactly(s.db, subs, stages);
      assert Perform(s.db, InsertAll(subs, stages)) == Inserts(s.db, subs, stages, |subs|);
      var ids := PlanTx(s, p.value).ids;
      if ids != [] {
        assert ids[0] in multiset(ids);
      }
    }
  }

  /** The state before the `i`th event. */
  function Before(cfg: Config, s: State, events: seq<Event>, i: nat): State
    requires i <= |events|
  {
    Run(cfg, s, events[..i])
  }

  lemma BeforePrefix(cfg: Config, s: State, events: seq<Event>, n: nat, i: nat)
    requires i <= n <= |events|
    ensures Before(cfg, s, events, i) == Before(cfg, s, events[..n], i)
  {
    assert events[..n][..i] == events[..i];
  }

  /** The two ways in which tasks and records part. */
  datatype Side = OfLost | OfOrphaned

  function Parted(cfg: Config, s: State, e: Event, side: Side): multiset<nat> {
    if side == OfLost then Lost(cfg, s, e) else Orphaned(cfg, s, e)
  }

  function PartedIn(cfg: Config, s: State, events: seq<Event>, side: Side): multiset<nat> {
    if side == OfLost then LostIn(cfg, s, events) else OrphanedIn(cfg, s, events)
  }

  /** What each event of a run loses, or orphans, in order. */
  function Partings(cfg: Config, s: State, events: seq<Event>, side: Side): (r: seq<multiset<nat>>)
    ensures |r| == |events|
  {
    seq(|events|, i requires 0 <= i < |events| => Parted(cfg, Before(cfg, s, events, i), events[i], side))
  }

  lemma PartingsPrefix(cfg: Config, s: State, events: seq<Event>, side: Side, n: nat)
    requires n <= |events|
    ensures Partings(cfg, s, events, side)[..n] == Partings(cfg, s, events[..n], side)
  {
    forall i | 0 <= i < n
      ensures Partings(cfg, s, events, side)[i] == Partings(cfg, s, events[..n], side)[i]
    {
      BeforePrefix(cfg, s, events, n, i);
    }
  }

  function Total(bags: seq<multiset<nat>>): multiset<nat> {
    if bags == [] then multiset{} else Total(bags[..|bags| - 1]) + bags[|bags| - 1]
  }

  lemma {:induction false} PartedInIsTotal(cfg: Config, s: State, events: seq<Event>, side: Side)
    ensures PartedIn(cfg, s, events, side) == Total(Partings(cfg, s, events, side))
  {
    if events != [] {
      var init := events[..|events| - 1];
      PartedInIsTotal(cfg, s, init, side);
      PartingsPrefix(cfg, s, events, side, |events| - 1);
    }
  }

  lemma {:induction false} TotalEmpty(bags: seq<multiset<nat>>)
    ensures Total(bags) == multiset{} <==> forall i :: 0 <= i < |bags| ==> bags[i] == multiset{}
  {
    if bags != [] {
      var init, last := bags[..|bags| - 1], bags[|bags| - 1];
      assert bags == init + [last];
      TotalEmpty(init);
      assert |Total(init) + last| == |Total(init)| + |last|;
    }
  }

  /** A run has lost, or orphaned, nothing exactly when none of its events does. */
  lemma LostInExactly(cfg: Config, s: State, events: seq<Event>, side: Side)
    ensures PartedIn(cfg, s, events, side) == multiset{} <==>
              forall i :: 0 <= i < |events| ==> Partings(cfg, s, events, side)[i] == multiset{}
  {
    PartedInIsTotal(cfg, s, events, side);
    TotalEmpty(Partings(cfg, s, events, side));
  }

  /**
   * The guard of the failing branches: a complete planning transaction is reported over while the
   * queue accepts, or commits after the queue has shut down.
   */
  ghost predicate SidesPart(cfg: Config, s: State, e: Event) {
    && PlansCompletely(cfg, s, e)
    && PlannedBy(cfg, s, e).value.2.commit == if s.accepting then TxDone else Done
  }

  lemma SidesPartAt(cfg: Config, s: State, events: seq<Event>, i: nat)
    requires i < |events|
    ensures SidesPart(cfg, Before(cfg, s, events, i), events[i]) <==>
              Partings(cfg, s, events, OfLost)[i] != multiset{} || Partings(cfg, s, events, OfOrphaned)[i] != multiset{}
  {
    LosesExactly(cfg, Before(cfg, s, events, i), events[i]);
  }

  /**
   * For every run: deliveries and records match one to one, each delivery with its own subscription's
   * record, exactly when no event meets the guard in the state before it.
   */
  lemma OneRecordEachExactly(cfg: Config, events: seq<Event>)
    ensures OneRecordEach(Run(cfg, EMPTY, events))
       <==> forall i :: 0 <= i < |events| ==> !SidesPart(cfg, Before(cfg, EMPTY, events, i), events[i])
  {
    BalancedExactly(cfg, events);
    LostInExactly(cfg, EMPTY, events, OfLost);
    LostInExactly(cfg, EMPTY, events, OfOrphaned);
    forall i | 0 <= i < |events|
      ensures SidesPart(cfg, Before(cfg, EMPTY, events, i), events[i]) <==>
                || Partings(cfg, EMPTY, events, OfLost)[i] != multiset{}
                || Partings(cfg, EMPTY, events, OfOrphaned)[i] != multiset{}
    {
      SidesPartAt(cfg, EMPTY, events, i);
    }
  }

  const WORKING := TxEnv(true, true, Done, Done)

  /** A native queue schedules one delivery, and the commit reports `ErrTxDone`: a delivery without record. */
  lemma TxDoneLosesRecord(cfg: Config)
    requires cfg.kind == Native
    ensures !OneRecordEach(Run(cfg, EMPTY, [Schedule([7], [], WORKING.(commit := TxDone))]))
  {
    var events := [Schedule([7], [], WORKING.(commit := TxDone))];
    assert events[..0] == [];
    assert SidesPart(cfg, Before(cfg, EMPTY, events, 0), events[0]);
    OneRecordEachExactly(cfg, events);
  }

  lemma RunOne(cfg: Config, s: State, e: Event)
    ensures Run(cfg, s, [e]) == Step(cfg, s, e)
  {
    assert [e][..0] == [];
  }

  /** The queue shuts down, and a delivery is scheduled: a record without delivery. */
  lemma ShutdownOrphansRecord(cfg: Config)
    requires cfg.kind == Native
    ensures !OneRecordEach(Run(cfg, EMPTY, [Shutdown, Schedule([7], [], WORKING)]))
  {
    var events := [Shutdown, Schedule([7], [], WORKING)];
    var s := Before(cfg, EMPTY, events, 1);
    assert events[..1] == [Shutdown];
    RunOne(cfg, EMPTY, Shutdown);
    assert SidesPart(cfg, s, events[1]);
    OneRecordEachExactly(cfg, events);
  }

  predicate Ordinary(e: Event) {
    !e.Shutdown? && e.tx.commit != TxDone
  }

  lemma OrdinaryStep(cfg: Config, s: State, e: Event)
    requires Ordinary(e) && s.accepting
    ensures Lost(cfg, s, e) == multiset{} && Orphaned(cfg, s, e) == multiset{} && Step(cfg, s, e).accepting
  {
  }

  lemma {:induction false} OrdinaryRunsBalance(cfg: Config, events: seq<Event>)
    requires forall i :: 0 <= i < |events| ==> Ordinary(events[i])
    ensures Run(cfg, EMPTY, events).accepting
    ensures LostIn(cfg, EMPTY, events) == multiset{} && OrphanedIn(cfg, EMPTY, events) == multiset{}
  {
    if events != [] {
      var init := events[..|events| - 1];
      OrdinaryRunsBalance(cfg, init);
      OrdinaryStep(cfg, Run(cfg, EMPTY, init), events[|events| - 1]);
    }
  }

  /** Runs without shutdown and without `ErrTxDone` on commit, whatever else goes wrong. */
  lemma OrdinaryRuns(cfg: Config, events: seq<Event>)
    requires forall i :: 0 <= i < |events| ==> Ordinary(events[i])
    ensures OneRecordEach(Run(cfg, EMPTY, events))
    ensures LostIn(cfg, EMPTY, events) == multiset{} && OrphanedIn(cfg, EMPTY, events) == multiset{}
  {
    OrdinaryRunsBalance(cfg, events);
    BalancedExactly(cfg, events);
  }

  // ----- counting

  function Deliveries(ts: seq<Task>): nat {
    if ts == [] then 0 else Deliveries(ts[..|ts| - 1]) + if ts[|ts| - 1].Delivery? then 1 else 0
  }

  function Ended(fs: seq<Finished>, failed: bool): nat {
    if fs == [] then 0
    else
      var f := fs[|fs| - 1];
      Ended(fs[..|fs| - 1], failed) + if f.task.Delivery? && f.failed == failed then 1 else 0
  }

  lemma {:induction false} OwnedSize(ts: seq<Task>)
    ensures |Owned(ts)| == Deliveries(ts)
  {
    if ts != [] {
      OwnedSize(ts[..|ts| - 1]);
    }
  }

  lemma {:induction false} DoneOwnedSize(fs: seq<Finished>)
    ensures |DoneOwned(fs)| == Ended(fs, true) + Ended(fs, false)
  {
    if fs != [] {
      DoneOwnedSize(fs[..|fs| - 1]);
    }
  }

  /** Conservation, for every run: pending, delivered and failed deliveries account for all records. */
  lemma RecordsConserved(cfg: Config, events: seq<Event>)
    ensures var s := Run(cfg, EMPTY, events);
            Deliveries(s.queue) + Ended(s.finished, false) + Ended(s.finished, true) + |OrphanedIn(cfg, EMPTY, events)|
            == |s.db.records| + |LostIn(cfg, EMPTY, events)|
  {
    RunKeepsBooks(cfg, events);
    var s, lost, orphaned := Run(cfg, EMPTY, events), LostIn(cfg, EMPTY, events), OrphanedIn(cfg, EMPTY, events);
    OwnedSize(s.queue);
    DoneOwnedSize(s.finished);
    assert |Owners(s) + orphaned| == |multiset(s.db.records.Keys) + lost|;
  }

  // ----- only its own task changes a record

  /** The answer that an event records for a delivery: one received by the delivery's own task, and committed. */
  function Applied(s: State, e: Event, id: nat): Option<Response> {
    if s.crashed || !e.Dispatch? || s.queue == [] || !s.queue[0].Delivery? || s.queue[0].id != id then None
    else if !e.attempt.Answered? || !e.attempt.accepted then None
    else
      var tx := e.attempt.update;
      if tx.connected && tx.begun && tx.commit == Done then Some(e.attempt.response) else None
  }

  function LastApplied(cfg: Config, s: State, events: seq<Event>, id: nat): Option<Response> {
    if events == [] then None
    else
      var init := events[..|events| - 1];
      var last := Applied(Run(cfg, s, init), events[|events| - 1], id);
      if last.Some? then last else LastApplied(cfg, s, init, id)
  }

  lemma PlanKeepsRecord(s: State, subs: seq<nat>, stages: seq<Stage>, tx: TxEnv, id: nat)
    requires Sequenced(s.db) && id in s.db.records
    ensures var db := AfterPlan(s, subs, stages, tx).0.db;
            Sequenced(db) && id in db.records && db.records[id] == s.db.records[id]
  {
    TxKeepsRecords(s.db, tx, InsertAll(subs, stages), id);
  }

  lemma StepRecord(cfg: Config, s: State, e: Event, id: nat)
    requires Sequenced(s.db) && id in s.db.records
    ensures Sequenced(Step(cfg, s, e).db) && id in Step(cfg, s, e).db.records
    ensures Step(cfg, s, e).db.records[id]
         == if Applied(s, e, id).Some? then s.db.records[id].(response := Applied(s, e, id)) else s.db.records[id]
  {
    if e.Schedule? {
      PlanKeepsRecord(s, e.subs, e.stages, e.tx, id);
    } else if e.Dispatch? && s.queue != [] && s.queue[0].Planning? {
      PlanKeepsRecord(s.(queue := s.queue[1..]), s.queue[0].subs, e.stages, e.tx, id);
    }
  }

  /**
   * Along every run a record stays in the table and shows the last answer that its own task received
   * and managed to record; nothing else touches it.
   */
  lemma {:induction false} RecordShowsLastAnswer(cfg: Config, s: State, events: seq<Event>, id: nat)
    requires Sequenced(s.db) && id in s.db.records
    ensures var db, last := Run(cfg, s, events).db, LastApplied(cfg, s, events, id);
            && Sequenced(db) && id in db.records
            && db.records[id] == if last.Some? then s.db.records[id].(response := last) else s.db.records[id]
  {
    if events != [] {
      var init := events[..|events| - 1];
      RecordShowsLastAnswer(cfg, s, init, id);
      StepRecord(cfg, Run(cfg, s, init), events[|events| - 1], id);
    }
  }

  // ----- retries

  /** Recording an answer returns no error. */
  predicate Recorded(tx: TxEnv, accepted: bool) {
    tx.connected && tx.begun && accepted && tx.commit != EndFailed
  }

  /** Recording an answer panics: the transaction begins, and its end fails. */
  predicate RecordingPanics(tx: TxEnv, accepted: bool) {
    tx.connected && tx.begun && (if accepted then tx.commit else tx.rollback) == EndFailed
  }

  /**
   * An attempt that calls for another: the connection failed, or the answer was 502, 503 or 504; in
   * the legacy queue an answer counts only if recording it returned no error.
   */
  predicate CallsForAnother(kind: Kind, a: Attempt) {
    || a.TransportError?
    || (a.Answered? && a.response.status in {502, 503, 504} && (kind == Legacy ==> Recorded(a.update, a.accepted)))
  }

  predicate Panics(a: Attempt) {
    a.Answered? && RecordingPanics(a.update, a.accepted)
  }

  /** An attempt that ends its delivery as failed. */
  predicate Fails(cfg: Config, a: Attempt, attempts: nat) {
    a.BadRequest? || a.BodyError? || (CallsForAnother(cfg.kind, a) && attempts >= cfg.attempts)
  }

  lemma ResultExactly(kind: Kind, a: Attempt, db: Db, id: nat)
    ensures var r := ResultOf(kind, a, db, id);
            && (r == Crash <==> Panics(a))
            && (r == Retryable <==> !Panics(a) && CallsForAnother(kind, a))
            && (r == Fatal <==> a.BadRequest? || a.BodyError?)
  {
  }

  /**
   * A delivery attempt ends the process exactly when recording its answer panics. Otherwise it is
   * repeated exactly when it calls for another and attempts are left, and else ends the delivery, as
   * failed exactly when it could not be made or read, or called for another in vain.
   */
  lemma RetriedExactly(cfg: Config, s: State, e: Event)
    requires e.Dispatch? && !s.crashed && s.queue != [] && s.queue[0].Delivery?
    ensures var task, s' := s.queue[0], Step(cfg, s, e);
            var again := Delivery(task.id, task.sub, task.attempts + 1);
            && (s'.crashed <==> Panics(e.attempt))
            && (s'.crashed ==> s'.queue == s.queue && s'.finished == s.finished)
            && (!s'.crashed ==>
                  && (s'.queue == s.queue[1..] + [again] <==>
                        CallsForAnother(cfg.kind, e.attempt) && again.attempts < cfg.attempts)
                  && (s'.queue == s.queue[1..] + [again] ==> s'.finished == s.finished)
                  && (s'.queue != s.queue[1..] + [again] ==>
                        && s'.queue == s.queue[1..]
                        && s'.finished == s.finished + [Finished(again, Fails(cfg, e.attempt, again.attempts))]))
  {
    var task := s.queue[0];
    var again := Delivery(task.id, task.sub, task.attempts + 1);
    ResultExactly(cfg.kind, e.attempt, s.db, task.id);
    assert [task] + s.queue[1..] == s.queue;
    assert |s.queue[1..] + [again]| != |s.queue[1..]|;
  }

  // ----- which events take the process down

  /** The loop over the subscriptions reaches one whose execution panics. */
  ghost predicate ReachesPanic(subs: seq<nat>, stages: seq<Stage>) {
    exists i: nat ::
      && i < |subs| && StageAt(stages, i) == ExecPanicked
      && forall j: nat :: j < i ==> StageAt(stages, j) == Inserted
  }

  /** A planning transaction panics: in its callback, or because it begins and its end fails. */
  ghost predicate PlanningPanics(subs: seq<nat>, stages: seq<Stage>, tx: TxEnv) {
    && tx.connected && tx.begun
    && (ReachesPanic(subs, stages) || (if AllInserted(subs, stages) then tx.commit else tx.rollback) == EndFailed)
  }

  lemma PlanningPanicsExactly(db: Db, subs: seq<nat>, stages: seq<Stage>, tx: TxEnv)
    ensures AfterTx(db, tx, InsertAll(subs, stages)).returned == Panicked <==> PlanningPanics(subs, stages, tx)
  {
    var p := Inserts(db, subs, stages, |subs|);
    assert Perform(db, InsertAll(subs, stages)) == p;
    InsertsExactly(db, subs, stages, |subs|);
    InsertsSucceedExactly(db, subs, stages);
  }

  /** An event takes the process down: the task at the head of the queue panics. */
  ghost predicate TakesDown(s: State, e: Event) {
    && e.Dispatch? && s.queue != []
    && match s.queue[0]
       case Planning(subs, _) => PlanningPanics(subs, e.stages, e.tx)
       case Delivery(_, _, _) => Panics(e.attempt)
  }

  lemma StepCrashesExactly(cfg: Config, s: State, e: Event)
    ensures Step(cfg, s, e).crashed <==> s.crashed || TakesDown(s, e)
    ensures Step(cfg, s, e).crashed ==> s.crashed || Step(cfg, s, e).queue != []
  {
    if e.Dispatch? && s.queue != [] && !s.crashed {
      var task, s' := s.queue[0], s.(queue := s.queue[1..]);
      match task
      case Planning(subs, _) => PlanningPanicsExactly(s'.db, subs, e.stages, e.tx);
      case Delivery(id, _, _) => ResultExactly(cfg.kind, e.attempt, s.db, id);
    }
  }

  /** The `i`th event of a run takes the process down. */
  ghost predicate DownAt(cfg: Config, s: State, events: seq<Event>, i: nat)
    requires i < |events|
  {
    TakesDown(Before(cfg, s, events, i), events[i])
  }

  ghost predicate NoneTakesDown(cfg: Config, s: State, events: seq<Event>) {
    forall i: nat :: i < |events| ==> !DownAt(cfg, s, events, i)
  }

  lemma DownAtPrefix(cfg: Config, s: State, events: seq<Event>, n: nat, i: nat)
    requires i < n <= |events|
    ensures DownAt(cfg, s, events[..n], i) <==> DownAt(cfg, s, events, i)
  {
    BeforePrefix(cfg, s, events, n, i);
  }

  lemma NoneTakesDownSnoc(cfg: Config, s: State, events: seq<Event>, n: nat)
    requires |events| == n + 1
    ensures NoneTakesDown(cfg, s, events)
       <==> NoneTakesDown(cfg, s, events[..n]) && !TakesDown(Run(cfg, s, events[..n]), events[n])
  {
    assert DownAt(cfg, s, events, n) <==> TakesDown(Run(cfg, s, events[..n]), events[n]);
    forall i: nat | i < n
      ensures DownAt(cfg, s, events[..n], i) <==> DownAt(cfg, s, events, i)
    {
      DownAtPrefix(cfg, s, events, n, i);
    }
  }

  /** A run ends with the process down exactly when one of its events takes it down; a task is then left. */
  lemma {:induction false} CrashesExactly(cfg: Config, s: State, events: seq<Event>)
    requires !s.crashed
    ensures Run(cfg, s, events).crashed <==> !NoneTakesDown(cfg, s, events)
    ensures Run(cfg, s, events).crashed ==> Run(cfg, s, events).queue != []
  {
    if events != [] {
      var n := |events| - 1;
      CrashesExactly(cfg, s, events[..n]);
      StepCrashesExactly(cfg, Run(cfg, s, events[..n]), events[n]);
      NoneTakesDownSnoc(cfg, s, events, n);
    }
  }

  // ----- every run drains

  function Bound(cfg: Config, t: Task): nat {
    if t.Delivery? then cfg.attempts else cfg.planAttempts
  }

  ghost predicate AttemptsBounded(cfg: Config, s: State) {
    && (forall i :: 0 <= i < |s.queue| ==> s.queue[i].attempts < Bound(cfg, s.queue[i]))
    && (forall i :: 0 <= i < |s.finished| ==> 1 <= s.finished[i].task.attempts <= Bound(cfg, s.finished[i].task))
  }

  lemma PlanKeepsAttempts(cfg: Config, s: State, subs: seq<nat>, stages: seq<Stage>, tx: TxEnv)
    requires cfg.Valid() && AttemptsBounded(cfg, s)
    ensures AttemptsBounded(cfg, AfterPlan(s, subs, stages, tx).0)
  {
  }

  lemma SettleKeepsAttempts(cfg: Config, s: State, task: Task, result: Result)
    requires AttemptsBounded(cfg, s) && task.attempts < Bound(cfg, task)
    ensures AttemptsBounded(cfg, Settle(Bound(cfg, task), s, task, result))
  {
  }

  lemma StepKeepsAttempts(cfg: Config, s: State, e: Event)
    requires cfg.Valid() && AttemptsBounded(cfg, s)
    ensures AttemptsBounded(cfg, Step(cfg, s, e))
  {
    if s.crashed {
    } else if e.Schedule? {
      PlanKeepsAttempts(cfg, s, e.subs, e.stages, e.tx);
    } else if e.Dispatch? && s.queue != [] {
      var task, s' := s.queue[0], s.(queue := s.queue[1..]);
      if task.Planning? {
        PlanKeepsAttempts(cfg, s', task.subs, e.stages, e.tx);
        var (planned, returned) := AfterPlan(s', task.subs, e.stages, e.tx);
        SettleKeepsAttempts(cfg, planned, task, PlanResult(returned));
      } else {
        var s2 := s'.(db := AfterAttempt(s.db, task.id, e.attempt));
        SettleKeepsAttempts(cfg, s2, task, ResultOf(cfg.kind, e.attempt, s.db, task.id));
      }
    }
  }

  /** In every reachable state no task has been attempted more often than its bound allows. */
  lemma {:induction false} RunKeepsAttempts(cfg: Config, s: State, events: seq<Event>)
    requires cfg.Valid() && AttemptsBounded(cfg, s)
    ensures AttemptsBounded(cfg, Run(cfg, s, events))
  {
    if events != [] {
      RunKeepsAttempts(cfg, s, events[..|events| - 1]);
      StepKeepsAttempts(cfg, Run(cfg, s, events[..|events| - 1]), events[|events| - 1]);
    }
  }

  /** The attempts a task may still cause, counting those of the deliveries a planning task creates. */
  function Weight(cfg: Config, t: Task): nat {
    (if t.attempts < Bound(cfg, t) then Bound(cfg, t) - t.attempts else 0)
    + if t.Planning? then Times(|t.subs|, cfg.attempts) else 0
  }

  function Measure(cfg: Config, ts: seq<Task>): nat {
    if ts == [] then 0 else Measure(cfg, ts[..|ts| - 1]) + Weight(cfg, ts[|ts| - 1])
  }

  lemma {:induction false} MeasureConcat(cfg: Config, a: seq<Task>, b: seq<Task>)
    ensures Measure(cfg, a + b) == Measure(cfg, a) + Measure(cfg, b)
  {
    if b == [] {
      assert a + b == a;
    } else {
      MeasureConcat(cfg, a, b[..|b| - 1]);
      assert (a + b)[..|a + b| - 1] == a + b[..|b| - 1];
    }
  }

  lemma MeasureOne(cfg: Config, t: Task)
    ensures Measure(cfg, [t]) == Weight(cfg, t)
  {
    assert [t][..0] == [];
  }

  lemma {:induction false} NewTasksMeasure(cfg: Config, ids: seq<nat>, subs: seq<nat>)
    requires |ids| == |subs|
    ensures Measure(cfg, NewTasks(ids, subs)) == Times(|subs|, cfg.attempts)
  {
    if ids != [] {
      var n := |ids| - 1;
      NewTasksMeasure(cfg, ids[..n], subs[..n]);
      assert NewTasks(ids, subs)[..n] == NewTasks(ids[..n], subs[..n]);
    }
  }

  lemma PlanMeasure(cfg: Config, s: State, subs: seq<nat>, stages: seq<Stage>, tx: TxEnv)
    ensures var (s', returned) := AfterPlan(s, subs, stages, tx);
            Measure(cfg, s'.queue) <= Measure(cfg, s.queue) + if returned == Nil then Times(|subs|, cfg.attempts) else 0
  {
    var t := AfterTx(s.db, tx, InsertAll(subs, stages));
    if t.returned == Nil {
      NewTasksMeasure(cfg, t.ids, subs);
      MeasureConcat(cfg, s.queue, NewTasks(t.ids, subs));
    }
  }

  lemma SettleMeasure(cfg: Config, s: State, task: Task, result: Result)
    requires result != Crash && task.attempts < Bound(cfg, task)
    ensures var s' := Settle(Bound(cfg, task), s, task, result);
            Measure(cfg, s'.queue)
            <= Measure(cfg, s.queue) + if result == Retryable then Weight(cfg, task) - 1 else 0
  {
    var t := task.(attempts := task.attempts + 1);
    MeasureConcat(cfg, s.queue, [t]);
    MeasureOne(cfg, t);
  }

  /** Every dispatch of a task brings the queue closer to empty, unless it takes the process down. */
  lemma DispatchDecreases(cfg: Config, s: State, e: Event)
    requires cfg.Valid() && AttemptsBounded(cfg, s) && e.Dispatch? && s.queue != [] && !s.crashed
    ensures Step(cfg, s, e).crashed || Measure(cfg, Step(cfg, s, e).queue) < Measure(cfg, s.queue)
  {
    var task, s' := s.queue[0], s.(queue := s.queue[1..]);
    assert s.queue == [task] + s'.queue;
    MeasureConcat(cfg, [task], s'.queue);
    MeasureOne(cfg, task);
    if task.Planning? {
      PlanMeasure(cfg, s', task.subs, e.stages, e.tx);
      var (planned, returned) := AfterPlan(s', task.subs, e.stages, e.tx);
      if PlanResult(returned) != Crash {
        SettleMeasure(cfg, planned, task, PlanResult(returned));
      }
    } else {
      var result := ResultOf(cfg.kind, e.attempt, s.db, task.id);
      if result != Crash {
        SettleMeasure(cfg, s'.(db := AfterAttempt(s.db, task.id, e.attempt)), task, result);
      }
    }
  }

  ghost predicate Dispatches(events: seq<Event>) {
    forall i :: 0 <= i < |events| ==> events[i].Dispatch?
  }

  lemma {:induction false} DispatchesCountDown(cfg: Config, s: State, events: seq<Event>)
    requires cfg.Valid() && AttemptsBounded(cfg, s) && Dispatches(events)
    ensures var s' := Run(cfg, s, events);
            s'.crashed || s'.queue == [] || Measure(cfg, s'.queue) + |events| <= Measure(cfg, s.queue)
  {
    if events != [] {
      var init := events[..|events| - 1];
      DispatchesCountDown(cfg, s, init);
      RunKeepsAttempts(cfg, s, init);
      var s1 := Run(cfg, s, init);
      if !s1.crashed && s1.queue != [] {
        DispatchDecreases(cfg, s1, events[|events| - 1]);
      }
    }
  }

  /**
   * With nothing new scheduled, as many dispatches as the measure says empty the queue, whatever the
   * network does, exactly when none of them takes the process down.
   */
  lemma Drains(cfg: Config, s: State, events: seq<Event>)
    requires cfg.Valid() && AttemptsBounded(cfg, s) && Dispatches(events) && !s.crashed
    requires |events| >= Measure(cfg, s.queue)
    ensures Run(cfg, s, events).queue == [] <==> NoneTakesDown(cfg, s, events)
  {
    DispatchesCountDown(cfg, s, events);
    RunKeepsAttempts(cfg, s, events);
    CrashesExactly(cfg, s, events);
  }

  lemma {:induction false} RunConcat(cfg: Config, s: State, a: seq<Event>, b: seq<Event>)
    ensures Run(cfg, s, a + b) == Run(cfg, Run(cfg, s, a), b)
  {
    if b == [] {
      assert a + b == a;
    } else {
      RunConcat(cfg, s, a, b[..|b| - 1]);
      assert (a + b)[..|a + b| - 1] == a + b[..|b| - 1];
    }
  }

  /**
   * Any history followed by enough dispatches leaves nothing queued exactly when no event takes the
   * process down; then every delivery has ended, one for each record.
   */
  lemma DrainedRun(cfg: Config, history: seq<Event>, dispatches: seq<Event>)
    requires cfg.Valid() && Dispatches(dispatches)
    requires forall i :: 0 <= i < |history + dispatches| ==> Ordinary((history + dispatches)[i])
    requires |dispatches| >= Measure(cfg, Run(cfg, EMPTY, history).queue)
    ensures var events := history + dispatches; var s := Run(cfg, EMPTY, events);
            && (s.queue == [] <==> NoneTakesDown(cfg, EMPTY, events))
            && (s.queue == [] ==> Ended(s.finished, false) + Ended(s.finished, true) == |s.db.records|)
  {
    RunKeepsAttempts(cfg, EMPTY, history);
    DispatchesCountDown(cfg, Run(cfg, EMPTY, history), dispatches);
    RunConcat(cfg, EMPTY, history, dispatches);
    RunKeepsAttempts(cfg, EMPTY, history + dispatches);
    CrashesExactly(cfg, EMPTY, history + dispatches);
    OrdinaryRuns(cfg, history + dispatches);
    RecordsConserved(cfg, history + dispatches);
  }

  /** Nothing that an event brings with it can panic, whatever task it meets. */
  predicate Quiet(e: Event) {
    e.Dispatch? ==>
      !Panics(e.attempt) && ExecPanicked !in e.stages && e.tx.commit != EndFailed && e.tx.rollback != EndFailed
  }

  lemma QuietTakesNothingDown(s: State, e: Event)
    requires Quiet(e)
    ensures !TakesDown(s, e)
  {
  }

  /** Where no event can panic, everything ends: each record's delivery is delivered or failed. */
  lemma QuietRunsEnd(cfg: Config, history: seq<Event>, dispatches: seq<Event>)
    requires cfg.Valid() && Dispatches(dispatches)
    requires forall i :: 0 <= i < |history + dispatches| ==> Ordinary((history + dispatches)[i])
    requires forall i :: 0 <= i < |history + dispatches| ==> Quiet((history + dispatches)[i])
    requires |dispatches| >= Measure(cfg, Run(cfg, EMPTY, history).queue)
    ensures var s := Run(cfg, EMPTY, history + dispatches);
            !s.crashed && s.queue == [] && Ended(s.finished, false) + Ended(s.finished, true) == |s.db.records|
  {
    var events := history + dispatches;
    forall i: nat | i < |events|
      ensures !DownAt(cfg, EMPTY, events, i)
    {
      QuietTakesNothingDown(Before(cfg, EMPTY, events, i), events[i]);
    }
    DrainedRun(cfg, history, dispatches);
    CrashesExactly(cfg, EMPTY, events);
  }

  // ----- scheduling is all or nothing

  ghost predicate AllScheduled(s: State, s': State, subs: seq<nat>) {
    && s'.db.records == WithNew(s.db.records, subs, s.db.nextId)
    && s'.queue == s.queue + NewTasks(Ids(s.db.nextId, |subs|), subs)
  }

  ghost predicate NothingScheduled(s: State, s': State) {
    s'.db.records == s.db.records && s'.queue == s.queue
  }

  /**
   * Either every subscription gets a fresh record and, in order, a task bound to it, or nothing is
   * left behind, wherever the loop fails; except exactly when a complete transaction is reported over
   * (then tasks without records are queued), or commits for a queue that has shut down.
   */
  lemma AllOrNothingExactly(s: State, subs: seq<nat>, stages: seq<Stage>, tx: TxEnv)
    requires subs != [] && Sequenced(s.db)
    ensures var s' := AfterPlan(s, subs, stages, tx).0;
            var complete := tx.connected && tx.begun && AllInserted(subs, stages);
            && (AllScheduled(s, s', subs) <==> complete && tx.commit == Done && s.accepting)
            && (AllScheduled(s, s', subs) || NothingScheduled(s, s') <==>
                  !(complete && ((tx.commit == TxDone && s.accepting) || (tx.commit == Done && !s.accepting))))
  {
    var t := AfterTx(s.db, tx, InsertAll(subs, stages));
    PlanTxEffect(s.db, subs, stages, tx);
    InsertsSucceedExactly(s.db, subs, stages);
    assert Perform(s.db, InsertAll(subs, stages)) == Inserts(s.db, subs, stages, |subs|);
    assert s.db.nextId in WithNew(s.db.records, subs, s.db.nextId) && s.db.nextId !in s.db.records;
    assert |s.queue + NewTasks(Ids(s.db.nextId, |subs|), subs)| == |s.queue| + |subs|;
  }

  // ----- why deliveries end

  /** The event at which a delivery ended: its own last attempt, and how that made it end. */
  ghost predicate EndsWith(cfg: Config, s: State, e: Event, f: Finished) {
    && f.task.Delivery? && f.task.attempts >= 1
    && e.Dispatch? && !s.crashed && s.queue != []
    && s.queue[0] == Delivery(f.task.id, f.task.sub, f.task.attempts - 1)
    && !Panics(e.attempt)
    && f.failed == Fails(cfg, e.attempt, f.task.attempts)
    && (!f.failed ==> e.attempt.Answered? && !CallsForAnother(cfg.kind, e.attempt))
  }

  /** One event finishes at most one task, and a delivery only by its own last attempt. */
  lemma StepFinishes(cfg: Config, s: State, e: Event)
    ensures var s' := Step(cfg, s, e);
            && s.finished <= s'.finished && |s'.finished| <= |s.finished| + 1
            && (|s'.finished| > |s.finished| && s'.finished[|s.finished|].task.Delivery? ==>
                  EndsWith(cfg, s, e, s'.finished[|s.finished|]))
  {
    if e.Dispatch? && !s.crashed && s.queue != [] && s.queue[0].Delivery? {
      RetriedExactly(cfg, s, e);
    }
  }

  /**
   * In every reachable state each finished delivery ended at one of the run's events. A delivered one
   * was answered, by something that calls for no other attempt; a failed one used up its attempts or
   * met an error that is not worth repeating.
   */
  lemma {:induction false} EndsExplained(cfg: Config, events: seq<Event>, k: nat) returns (i: nat)
    requires k < |Run(cfg, EMPTY, events).finished| && Run(cfg, EMPTY, events).finished[k].task.Delivery?
    ensures i < |events|
    ensures EndsWith(cfg, Before(cfg, EMPTY, events, i), events[i], Run(cfg, EMPTY, events).finished[k])
  {
    var n := |events| - 1;
    var s, e := Run(cfg, EMPTY, events[..n]), events[n];
    StepFinishes(cfg, s, e);
    if k < |s.finished| {
      i := EndsExplained(cfg, events[..n], k);
      BeforePrefix(cfg, EMPTY, events, n, i);
    } else {
      i := n;
    }
  }
}
