/** What holds over whole runs of the webhook queues. */
module DeliveryRuns {
  import opened Bytes
  import opened Transactions
  import opened Delivery

  // ----- which task owns which record

  function OwnedBy(t: Task): multiset<nat> {
    if t.Delivery? then multiset{t.id} else multiset{}
  }

  function Owned(ts: seq<Task>): multiset<nat> {
    if ts == [] then multiset{} else Owned(ts[..|ts| - 1]) + OwnedBy(ts[|ts| - 1])
  }

  function DoneOwned(fs: seq<Finished>): multiset<nat> {
    if fs == [] then multiset{} else DoneOwned(fs[..|fs| - 1]) + OwnedBy(fs[|fs| - 1].task)
  }

  /** The records claimed by the queued and the finished deliveries. */
  function Owners(s: State): multiset<nat> {
    Owned(s.queue) + DoneOwned(s.finished)
  }

  lemma Regroup(a: multiset<nat>, b: multiset<nat>, c: multiset<nat>)
    ensures (a + b) + c == (b + c) + a == (b + a) + c == b + (c + a)
  {
  }

  lemma OwnedSnoc(ts: seq<Task>, t: Task)
    ensures Owned(ts + [t]) == Owned(ts) + OwnedBy(t)
  {
    assert (ts + [t])[..|ts|] == ts;
  }

  lemma {:induction false} OwnedConcat(a: seq<Task>, b: seq<Task>)
    ensures Owned(a + b) == Owned(a) + Owned(b)
  {
    if b == [] {
      assert a + b == a;
    } else {
      var init, t := b[..|b| - 1], b[|b| - 1];
      assert b == init + [t] && a + b == (a + init) + [t];
      OwnedConcat(a, init);
      OwnedSnoc(a + init, t);
      OwnedSnoc(init, t);
      Regroup(Owned(a), Owned(init), OwnedBy(t));
    }
  }

  lemma OwnedOne(t: Task)
    ensures Owned([t]) == OwnedBy(t)
  {
    assert [t][..0] == [];
  }

  lemma DoneOwnedSnoc(fs: seq<Finished>, f: Finished)
    ensures DoneOwned(fs + [f]) == DoneOwned(fs) + OwnedBy(f.task)
  {
    assert (fs + [f])[..|fs|] == fs;
  }

  lemma {:induction false} NewTasksOwned(ids: seq<nat>, subs: seq<nat>)
    requires |ids| == |subs|
    ensures Owned(NewTasks(ids, subs)) == multiset(ids)
  {
    if ids != [] {
      var n := |ids| - 1;
      NewTasksOwned(ids[..n], subs[..n]);
      var ts := NewTasks(ids, subs);
      assert ts[..n] == NewTasks(ids[..n], subs[..n]);
      assert ids == ids[..n] + [ids[n]];
    }
  }

  lemma PushedBackOwners(s: State, task: Task)
    ensures Owners(s.(queue := [task] + s.queue, crashed := true)) == Owners(s) + OwnedBy(task)
  {
    OwnedConcat([task], s.queue);
    OwnedOne(task);
    Regroup(OwnedBy(task), Owned(s.queue), DoneOwned(s.finished));
  }

  lemma QueuedOwners(s: State, t: Task)
    ensures Owners(s.(queue := s.queue + [t])) == Owners(s) + OwnedBy(t)
  {
    OwnedSnoc(s.queue, t);
    Regroup(OwnedBy(t), Owned(s.queue), DoneOwned(s.finished));
  }

  lemma FinishedOwners(s: State, t: Task, failed: bool)
    ensures Owners(s.(finished := s.finished + [Finished(t, failed)])) == Owners(s) + OwnedBy(t)
  {
    DoneOwnedSnoc(s.finished, Finished(t, failed));
    Regroup(OwnedBy(t), Owned(s.queue), DoneOwned(s.finished));
  }

  /** Settling an attempt moves its owner; it never duplicates or drops it. */
  lemma SettleKeepsOwners(bound: nat, s: State, task: Task, result: Result)
    ensures Owners(Settle(bound, s, task, result)) == Owners(s) + OwnedBy(task)
    ensures Settle(bound, s, task, result).db == s.db
  {
    var t := task.(attempts := task.attempts + 1);
    assert OwnedBy(t) == OwnedBy(task);
    var s' := Settle(bound, s, task, result);
    if result == Crash {
      PushedBackOwners(s, task);
      assert s' == s.(queue := [task] + s.queue, crashed := true);
    } else if result == Retryable && t.attempts < bound {
      QueuedOwners(s, t);
      assert s' == s.(queue := s.queue + [t]);
    } else {
      FinishedOwners(s, t, result != Success);
      assert s' == s.(finished := s.finished + [Finished(t, result != Success)]);
    }
  }

  // ----- transactions whose records and tasks part ways

  /** The subscriptions an event plans deliveries for in its transaction, if it does. */
  function PlannedBy(cfg: Config, s: State, e: Event): Option<(seq<nat>, seq<Stage>, TxEnv)> {
    if s.crashed then None
    else match e
    case Schedule(subs, stages, tx) => if subs != [] && cfg.kind == Native then Some((subs, stages, tx)) else None
    case Dispatch(_, stages, tx) =>
      if s.queue != [] && s.queue[0].Planning? then Some((s.queue[0].subs, stages, tx)) else None
    case Shutdown => None
  }

  function PlanTx(s: State, p: (seq<nat>, seq<Stage>, TxEnv)): TxOutcome {
    AfterTx(s.db, p.2, InsertAll(p.0, p.1))
  }

  function When(c: bool, m: multiset<nat>): multiset<nat> {
    if c then m else multiset{}
  }

  /** Tasks queued for records that do not exist: the commit reported the transaction over, and `WithTx` success. */
  function Lost(cfg: Config, s: State, e: Event): multiset<nat> {
    var p := PlannedBy(cfg, s, e);
    if p.None? then multiset{} else LostBy(s, p.value)
  }

  function LostBy(s: State, p: (seq<nat>, seq<Stage>, TxEnv)): multiset<nat> {
    When(PlanTx(s, p).returned == Nil && p.2.commit == TxDone && s.accepting, multiset(PlanTx(s, p).ids))
  }

  /** Records committed for tasks that a queue shut down in the meantime refused. */
  function Orphaned(cfg: Config, s: State, e: Event): multiset<nat> {
    var p := PlannedBy(cfg, s, e);
    if p.None? then multiset{} else OrphanedBy(s, p.value)
  }

  function OrphanedBy(s: State, p: (seq<nat>, seq<Stage>, TxEnv)): multiset<nat> {
    When(PlanTx(s, p).returned == Nil && p.2.commit == Done && !s.accepting, multiset(PlanTx(s, p).ids))
  }

  function LostIn(cfg: Config, s: State, events: seq<Event>): multiset<nat> {
    if events == [] then multiset{}
    else
      var init := events[..|events| - 1];
      LostIn(cfg, s, init) + Lost(cfg, Run(cfg, s, init), events[|events| - 1])
  }

  function OrphanedIn(cfg: Config, s: State, events: seq<Event>): multiset<nat> {
    if events == [] then multiset{}
    else
      var init := events[..|events| - 1];
      OrphanedIn(cfg, s, init) + Orphaned(cfg, Run(cfg, s, init), events[|events| - 1])
  }

  // ----- the invariant

  ghost predicate Bookkeeping(s: State, lost: multiset<nat>, orphaned: multiset<nat>) {
    && Owners(s) + orphaned == multiset(s.db.records.Keys) + lost
    && lost <= Owners(s)
    && orphaned <= multiset(s.db.records.Keys)
    && (forall id :: id in Owners(s) + orphaned ==> id < s.db.nextId && (Owners(s) + orphaned)[id] == 1)
  }

  lemma FreshIds(records: map<nat, Record>, subs: seq<nat>, first: nat)
    requires forall id :: id in records ==> id < first
    ensures multiset(WithNew(records, subs, first).Keys) == multiset(records.Keys) + multiset(Ids(first, |subs|))
    ensures forall id :: multiset(Ids(first, |subs|))[id] == if first <= id < first + |subs| then 1 else 0
  {
    IdsCount(first, |subs|);
  }

  lemma {:induction false} IdsCount(first: nat, n: nat)
    ensures forall id :: multiset(Ids(first, n))[id] == if first <= id < first + n then 1 else 0
  {
    if n > 0 {
      IdsCount(first, n - 1);
      assert Ids(first, n) == Ids(first, n - 1) + [first + n - 1];
    }
  }

  /** The transaction that plans deliveries. */
  lemma PlanTxEffect(db: Db, subs: seq<nat>, stages: seq<Stage>, tx: TxEnv)
    ensures var t := AfterTx(db, tx, InsertAll(subs, stages));
            && t.db.nextId >= db.nextId
            && (t.returned == Nil ==>
                  && t.ids == Ids(db.nextId, |subs|)
                  && t.db.nextId == db.nextId + |subs|
                  && (tx.commit == Done || tx.commit == TxDone))
            && t.db.records == if t.returned == Nil && tx.commit == Done then WithNew(db.records, subs, db.nextId)
                               else db.records
  {
    var p := Inserts(db, subs, stages, |subs|);
    assert Perform(db, InsertAll(subs, stages)) == p;
    InsertsWhole(db, subs, stages);
  }

  lemma InsertsWhole(db: Db, subs: seq<nat>, stages: seq<Stage>)
    ensures var p := Inserts(db, subs, stages, |subs|);
            && p.db.nextId >= db.nextId
            && (p.result == FnNil ==>
                  && p.ids == Ids(db.nextId, |subs|)
                  && p.db == Db(WithNew(db.records, subs, db.nextId), db.nextId + |subs|))
  {
    assert subs[..|subs|] == subs;
    InsertsExactly(db, subs, stages, |subs|);
  }

  lemma EnqueueOwners(s: State, tasks: seq<Task>)
    ensures Owners(Enqueue(s, tasks)) == Owners(s) + When(s.accepting, Owned(tasks))
  {
    OwnedConcat(s.queue, tasks);
    Regroup(Owned(tasks), Owned(s.queue), DoneOwned(s.finished));
  }

  /** What planning does to the table and the owners: the new identifiers go to either, to both or to neither. */
  lemma PlanEffect(s: State, subs: seq<nat>, stages: seq<Stage>, tx: TxEnv)
    requires forall id :: id in s.db.records ==> id < s.db.nextId
    ensures var t := AfterTx(s.db, tx, InsertAll(subs, stages));
            var s' := AfterPlan(s, subs, stages, tx).0;
            && s'.db == t.db
            && Owners(s') == Owners(s) + When(t.returned == Nil && s.accepting, multiset(t.ids))
            && multiset(s'.db.records.Keys)
               == multiset(s.db.records.Keys) + When(t.returned == Nil && tx.commit == Done, multiset(t.ids))
  {
    PlanTxEffect(s.db, subs, stages, tx);
    var t := AfterTx(s.db, tx, InsertAll(subs, stages));
    FreshIds(s.db.records, subs, s.db.nextId);
    if t.returned == Nil {
      NewTasksOwned(t.ids, subs);
      EnqueueOwners(s.(db := t.db), NewTasks(t.ids, subs));
    }
  }

  lemma AddBoth(a: multiset<nat>, o: multiset<nat>, b: multiset<nat>, l: multiset<nat>,
                ids: multiset<nat>, q: bool, t: bool)
    requires a + o == b + l && l <= a && o <= b
    ensures (a + When(q, ids)) + (o + When(t && !q, ids)) == (b + When(t, ids)) + (l + When(q && !t, ids))
    ensures (a + When(q, ids)) + (o + When(t && !q, ids)) == (a + o) + When(q || t, ids)
    ensures l + When(q && !t, ids) <= a + When(q, ids) && o + When(t && !q, ids) <= b + When(t, ids)
  {
    var before, after := a + o, b + l;
    var x, y := (a + When(q, ids)) + (o + When(t && !q, ids)), (b + When(t, ids)) + (l + When(q && !t, ids));
    forall id
      ensures x[id] == y[id]
    {
      assert before[id] == after[id];
    }
  }

  lemma BookkeepingGrows(s: State, s': State, n: nat, queued: bool, stored: bool,
                         lost: multiset<nat>, orphaned: multiset<nat>)
    requires Bookkeeping(s, lost, orphaned) && s'.db.nextId >= s.db.nextId
    requires queued || stored ==> s'.db.nextId == s.db.nextId + n
    requires Owners(s') == Owners(s) + When(queued, multiset(Ids(s.db.nextId, n)))
    requires multiset(s'.db.records.Keys) == multiset(s.db.records.Keys) + When(stored, multiset(Ids(s.db.nextId, n)))
    ensures Bookkeeping(s', lost + When(queued && !stored, multiset(Ids(s.db.nextId, n))),
                        orphaned + When(stored && !queued, multiset(Ids(s.db.nextId, n))))
  {
    var ids := multiset(Ids(s.db.nextId, n));
    IdsCount(s.db.nextId, n);
    AddBoth(Owners(s), orphaned, multiset(s.db.records.Keys), lost, ids, queued, stored);
    var o := Owners(s) + orphaned;
    var o' := Owners(s') + (orphaned + When(stored && !queued, ids));
    forall id | id in o'
      ensures id < s'.db.nextId && o'[id] == 1
    {
      assert o'[id] == o[id] + When(queued || stored, ids)[id];
    }
  }

  /** Planning keeps the books, adding to the lost or to the orphaned identifiers when the two sides differ. */
  lemma PlanKeeps(s: State, subs: seq<nat>, stages: seq<Stage>, tx: TxEnv, lost: multiset<nat>, orphaned: multiset<nat>)
    requires Bookkeeping(s, lost, orphaned)
    ensures Bookkeeping(AfterPlan(s, subs, stages, tx).0,
                        lost + LostBy(s, (subs, stages, tx)), orphaned + OrphanedBy(s, (subs, stages, tx)))
  {
    RecordsBelow(s, lost, orphaned);
    PlanTxEffect(s.db, subs, stages, tx);
    PlanEffect(s, subs, stages, tx);
    var nil := AfterTx(s.db, tx, InsertAll(subs, stages)).returned == Nil;
    BookkeepingGrows(s, AfterPlan(s, subs, stages, tx).0, |subs|,
                     nil && s.accepting, nil && tx.commit == Done, lost, orphaned);
  }

  lemma RecordsBelow(s: State, lost: multiset<nat>, orphaned: multiset<nat>)
    requires Bookkeeping(s, lost, orphaned)
    ensures forall id :: id in s.db.records ==> id < s.db.nextId
  {
    forall id | id in s.db.records
      ensures id < s.db.nextId
    {
      assert id in multiset(s.db.records.Keys) + lost;
    }
  }

  // ----- every step keeps the invariant

  lemma OwnedCons(q: seq<Task>)
    requires q != []
    ensures Owned(q) == OwnedBy(q[0]) + Owned(q[1..])
  {
    assert q == [q[0]] + q[1..];
    OwnedConcat([q[0]], q[1..]);
    OwnedOne(q[0]);
  }

  lemma RespondKeepsKeys(db: Db, id: nat, attempt: Attempt)
    ensures AfterAttempt(db, id, attempt).records.Keys == db.records.Keys
    ensures AfterAttempt(db, id, attempt).nextId == db.nextId
  {
  }

  lemma SameBooks(s: State, s': State, lost: multiset<nat>, orphaned: multiset<nat>)
    requires Bookkeeping(s, lost, orphaned)
    requires SameOwners(s, s')
    ensures Bookkeeping(s', lost + multiset{}, orphaned + multiset{})
  {
    assert lost + multiset{} == lost && orphaned + multiset{} == orphaned;
  }

  /** Taking the head off the queue takes off what it owns. */
  lemma PopOwners(s: State)
    requires s.queue != []
    ensures Owners(s) == Owners(s.(queue := s.queue[1..])) + OwnedBy(s.queue[0])
  {
    OwnedCons(s.queue);
    Regroup(OwnedBy(s.queue[0]), Owned(s.queue[1..]), DoneOwned(s.finished));
  }

  /** The table holds the same identifiers, for the same owners. */
  ghost predicate SameOwners(s: State, s': State) {
    Owners(s') == Owners(s) && s'.db.records.Keys == s.db.records.Keys && s'.db.nextId == s.db.nextId
  }

  lemma DeliveryKeepsOwners(cfg: Config, s: State, e: Event)
    requires e.Dispatch? && s.queue != [] && s.queue[0].Delivery?
    ensures SameOwners(s, AfterDispatch(cfg, s, e.attempt, e.stages, e.tx))
  {
    var task, s' := s.queue[0], s.(queue := s.queue[1..]);
    PopOwners(s);
    RespondKeepsKeys(s.db, task.id, e.attempt);
    var s2, result := s'.(db := AfterAttempt(s.db, task.id, e.attempt)), ResultOf(cfg.kind, e.attempt, s.db, task.id);
    assert Owners(s2) == Owners(s');
    SettleKeepsOwners(cfg.attempts, s2, task, result);
    assert AfterDispatch(cfg, s, e.attempt, e.stages, e.tx) == Settle(cfg.attempts, s2, task, result);
  }

  lemma DeferredKeepsOwners(s: State, subs: seq<nat>)
    ensures SameOwners(s, Enqueue(s, [Planning(subs, 0)]))
  {
    EnqueueOwners(s, [Planning(subs, 0)]);
    OwnedOne(Planning(subs, 0));
  }

  /** An event that plans no deliveries. */
  lemma UnplannedKeepsOwners(cfg: Config, s: State, e: Event)
    requires PlannedBy(cfg, s, e).None?
    ensures SameOwners(s, Step(cfg, s, e))
  {
    if !s.crashed {
      match e
      case Schedule(subs, _, _) => DeferredKeepsOwners(s, subs);
      case Dispatch(_, _, _) => if s.queue != [] { DeliveryKeepsOwners(cfg, s, e); }
      case Shutdown =>
    }
  }

  /** One event keeps the books, for every outcome of the environment. */
  lemma StepKeepsBooks(cfg: Config, s: State, e: Event, lost: multiset<nat>, orphaned: multiset<nat>)
    requires Bookkeeping(s, lost, orphaned)
    ensures Bookkeeping(Step(cfg, s, e), lost + Lost(cfg, s, e), orphaned + Orphaned(cfg, s, e))
  {
    if PlannedBy(cfg, s, e).None? {
      UnplannedKeepsOwners(cfg, s, e);
      SameBooks(s, Step(cfg, s, e), lost, orphaned);
    } else if e.Schedule? {
      PlanKeeps(s, e.subs, e.stages, e.tx, lost, orphaned);
    } else {
      PlanningKeepsBooks(cfg, s, e, lost, orphaned);
    }
  }

  lemma PlanningKeepsBooks(cfg: Config, s: State, e: Event, lost: multiset<nat>, orphaned: multiset<nat>)
    requires Bookkeeping(s, lost, orphaned) && e.Dispatch? && s.queue != [] && !s.crashed && s.queue[0].Planning?
    ensures Bookkeeping(Step(cfg, s, e), lost + Lost(cfg, s, e), orphaned + Orphaned(cfg, s, e))
  {
    var task, s' := s.queue[0], s.(queue := s.queue[1..]);
    PopOwners(s);
    NobodysTask(Owners(s'), task);
    BooksCarryOver(s, s', lost, orphaned);
    PlanKeeps(s', task.subs, e.stages, e.tx, lost, orphaned);
    var (planned, returned) := AfterPlan(s', task.subs, e.stages, e.tx);
    LostOfPlanning(cfg, s, e);
    SettledBooks(cfg.planAttempts, planned, task, PlanResult(returned),
                 lost + Lost(cfg, s, e), orphaned + Orphaned(cfg, s, e));
  }

  lemma PlanningSettled(bound: nat, s: State, task: Task, result: Result)
    requires task.Planning?
    ensures Owners(Settle(bound, s, task, result)) == Owners(s) && Settle(bound, s, task, result).db == s.db
  {
    SettleKeepsOwners(bound, s, task, result);
    NobodysTask(Owners(s), task);
  }

  lemma SettledBooks(bound: nat, s: State, task: Task, result: Result, lost: multiset<nat>, orphaned: multiset<nat>)
    requires task.Planning? && Bookkeeping(s, lost, orphaned)
    ensures Bookkeeping(Settle(bound, s, task, result), lost, orphaned)
  {
    PlanningSettled(bound, s, task, result);
    BooksCarryOver(s, Settle(bound, s, task, result), lost, orphaned);
  }

  lemma LostOfPlanning(cfg: Config, s: State, e: Event)
    requires e.Dispatch? && s.queue != [] && !s.crashed && s.queue[0].Planning?
    ensures var p, s' := (s.queue[0].subs, e.stages, e.tx), s.(queue := s.queue[1..]);
            Lost(cfg, s, e) == LostBy(s', p) && Orphaned(cfg, s, e) == OrphanedBy(s', p)
  {
  }

  lemma NobodysTask(m: multiset<nat>, t: Task)
    requires t.Planning?
    ensures m + OwnedBy(t) == m
  {
  }

  lemma BooksCarryOver(s: State, s': State, lost: multiset<nat>, orphaned: multiset<nat>)
    requires Bookkeeping(s, lost, orphaned)
    requires Owners(s') == Owners(s) && s'.db == s.db
    ensures Bookkeeping(s', lost, orphaned)
  {
  }

  /**
   * In every reachable state each identifier belongs to at most one task, and the tasks' identifiers
   * are those of the table but for the lost and the orphaned ones.
   */
  lemma {:induction false} RunKeepsBooks(cfg: Config, events: seq<Event>)
    ensures Bookkeeping(Run(cfg, EMPTY, events), LostIn(cfg, EMPTY, events), OrphanedIn(cfg, EMPTY, events))
  {
    if events != [] {
      var init := events[..|events| - 1];
      RunKeepsBooks(cfg, init);
      StepKeepsBooks(cfg, Run(cfg, EMPTY, init), events[|events| - 1],
                     LostIn(cfg, EMPTY, init), OrphanedIn(cfg, EMPTY, init));
    }
  }
}
