/**
 * The delivery table and the transactions that change it: `WithTx` of database/middleware.go with
 * the two callbacks that the webhook queues run in it.
 */
module Transactions {
  import opened Bytes

  datatype Response = Response(status: int, body: Str)

  datatype Record = Record(subscription: nat, response: Option<Response>)

  /** The committed table. Identifiers come from a sequence, which a rollback does not rewind. */
  datatype Db = Db(records: map<nat, Record>, nextId: nat)

  /** How preparing one subscription's delivery goes. */
  datatype Stage = Inserted | ExecFailed | ExecPanicked | InsertFailed

  /** What a callback does with its transaction. */
  datatype Work =
    | InsertAll(subs: seq<nat>, stages: seq<Stage>)
    | Respond(id: nat, response: Response, accepted: bool)

  datatype FnResult = FnNil | FnErr | FnPanic

  /** How ending a transaction goes. TxDone: it was rolled back before, the context being over. */
  datatype End = Done | TxDone | EndFailed

  datatype TxEnv = TxEnv(connected: bool, begun: bool, rollback: End, commit: End)

  datatype Returned = Nil | Err | Panicked

  // ----- specification

  function StageAt(stages: seq<Stage>, i: nat): Stage {
    if i < |stages| then stages[i] else Inserted
  }

  /** The staged table, the identifiers given out, and how the loop over the subscriptions stands. */
  datatype Progress = Progress(db: Db, ids: seq<nat>, result: FnResult)

  /** The loop over the first `n` subscriptions; it stops at the first failure. */
  function Inserts(db: Db, subs: seq<nat>, stages: seq<Stage>, n: nat): (p: Progress)
    requires n <= |subs|
    ensures |p.ids| <= n && (p.result == FnNil ==> |p.ids| == n)
  {
    if n == 0 then Progress(db, [], FnNil)
    else
      var p := Inserts(db, subs, stages, n - 1);
      if p.result != FnNil then p
      else match StageAt(stages, n - 1)
        case Inserted =>
          var records := p.db.records[p.db.nextId := Record(subs[n - 1], None)];
          Progress(Db(records, p.db.nextId + 1), p.ids + [p.db.nextId], FnNil)
        case ExecPanicked => p.(result := FnPanic)
        case _ => p.(result := FnErr)
  }

  function Perform(db: Db, work: Work): Progress {
    match work
    case InsertAll(subs, stages) => Inserts(db, subs, stages, |subs|)
    case Respond(id, response, accepted) =>
      if !accepted then Progress(db, [], FnErr)
      else if id !in db.records then Progress(db, [], FnNil)
      else Progress(db.(records := db.records[id := db.records[id].(response := Some(response))]), [], FnNil)
  }

  function RolledBack(before: Db, staged: Db): Db {
    before.(nextId := staged.nextId)
  }

  datatype TxOutcome = TxOutcome(db: Db, ids: seq<nat>, returned: Returned)

  function AfterTx(db: Db, env: TxEnv, work: Work): TxOutcome {
    if !env.connected || !env.begun then TxOutcome(db, [], Err)
    else
      var p := Perform(db, work);
      var back := RolledBack(db, p.db);
      match p.result
      case FnPanic => TxOutcome(back, p.ids, Panicked)
      case FnErr => TxOutcome(back, p.ids, if env.rollback == EndFailed then Panicked else Err)
      case FnNil => match env.commit
        case Done => TxOutcome(p.db, p.ids, Nil)
        case TxDone => TxOutcome(back, p.ids, Nil)
        case EndFailed => TxOutcome(back, p.ids, Panicked)
  }

  // ----- the code

  class Database {
    var committed: Db
    /** The table as the open transaction sees it. */
    var staged: Db
    var open: bool

    constructor ()
      ensures committed == Db(map[], 0) && !open
    {
      committed, staged, open := Db(map[], 0), Db(map[], 0), false;
    }

    method Begin()
      requires !open
      modifies `staged, `open
      ensures open && staged == committed
    {
      staged, open := committed, true;
    }

    method Rollback(outcome: End) returns (r: End)
      modifies `committed, `open
      ensures !open
      ensures committed == if old(open) then RolledBack(old(committed), staged) else old(committed)
      ensures r == if old(open) then outcome else TxDone
    {
      if !open {
        return TxDone;
      }
      committed, open := committed.(nextId := staged.nextId), false;
      r := outcome;
    }

    method Commit(outcome: End) returns (r: End)
      requires open
      modifies `committed, `open
      ensures !open
      ensures committed == if outcome == Done then staged else RolledBack(old(committed), staged)
      ensures r == outcome
    {
      committed := if outcome == Done then staged else committed.(nextId := staged.nextId);
      open := false;
      r := outcome;
    }

    /** `queueStage2`: prepares one delivery and inserts its record. */
    method InsertOne(sub: nat, stage: Stage) returns (id: nat, r: FnResult)
      modifies `staged
      ensures id == old(staged.nextId)
      ensures r == if stage == Inserted then FnNil else if stage == ExecPanicked then FnPanic else FnErr
      ensures staged == if r == FnNil then Db(old(staged.records)[id := Record(sub, None)], id + 1) else old(staged)
    {
      id := staged.nextId;
      match stage {
        case ExecPanicked => r := FnPanic;
        case ExecFailed => r := FnErr;
        case InsertFailed => r := FnErr;
        case Inserted =>
          staged := Db(staged.records[id := Record(sub, None)], id + 1);
          r := FnNil;
      }
    }

    /** A callback. */
    method Run(work: Work) returns (ids: seq<nat>, r: FnResult)
      modifies `staged
      ensures Progress(staged, ids, r) == Perform(old(staged), work)
    {
      ids, r := [], FnNil;
      match work {
        case InsertAll(subs, stages) =>
          for i := 0 to |subs|
            invariant r == FnNil && Progress(staged, ids, r) == Inserts(old(staged), subs, stages, i)
          {
            var id;
            id, r := InsertOne(subs[i], StageAt(stages, i));
            if r != FnNil {
              InsertsStopped(old(staged), subs, stages, i + 1, |subs|);
              return;
            }
            ids := ids + [id];
          }
        case Respond(id, response, accepted) =>
          if !accepted {
            return [], FnErr;
          }
          if id in staged.records {
            staged := staged.(records := staged.records[id := staged.records[id].(response := Some(response))]);
          }
      }
    }

    method WithTx(env: TxEnv, work: Work) returns (ids: seq<nat>, r: Returned)
      requires !open
      modifies this
      ensures !open
      ensures TxOutcome(committed, ids, r) == AfterTx(old(committed), env, work)
    {
      ids := [];
      if !env.connected {
        return [], Err;
      }
      if !env.begun {
        return [], Err;
      }
      Begin();
      var fn;
      ids, fn := Run(work);
      if fn == FnPanic {
        r := Panicked;
      } else if fn == FnErr {
        var e := Rollback(env.rollback);
        r := if e == EndFailed then Panicked else Err;
      } else {
        var e := Commit(env.commit);
        r := if e == EndFailed then Panicked else Nil;
      }
      var _ := Rollback(env.rollback);  // the deferred one: it ends the transaction of a panic only
    }
  }

  lemma {:induction false} InsertsStopped(db: Db, subs: seq<nat>, stages: seq<Stage>, i: nat, n: nat)
    requires i <= n <= |subs| && Inserts(db, subs, stages, i).result != FnNil
    ensures Inserts(db, subs, stages, n) == Inserts(db, subs, stages, i)
  {
    if i < n {
      InsertsStopped(db, subs, stages, i, n - 1);
    }
  }

  // ----- what transactions do

  /** The table with one record for each subscription, from identifier `first` on. */
  function WithNew(records: map<nat, Record>, subs: seq<nat>, first: nat): (r: map<nat, Record>)
    ensures forall id :: id in r <==> id in records || first <= id < first + |subs|
    ensures forall id :: id in r ==>
              r[id] == if first <= id < first + |subs| then Record(subs[id - first], None) else records[id]
  {
    if subs == [] then records
    else WithNew(records, subs[..|subs| - 1], first)[first + |subs| - 1 := Record(subs[|subs| - 1], None)]
  }

  function Ids(first: nat, n: nat): (r: seq<nat>)
    ensures |r| == n && forall i :: 0 <= i < n ==> r[i] == first + i
  {
    seq(n, i requires 0 <= i < n => first + i)
  }

  ghost predicate AllInserted(subs: seq<nat>, stages: seq<Stage>) {
    forall i: nat :: i < |subs| ==> StageAt(stages, i) == Inserted
  }

  function Staged(db: Db, subs: seq<nat>, k: nat): Db
    requires k <= |subs|
  {
    Db(WithNew(db.records, subs[..k], db.nextId), db.nextId + k)
  }

  lemma StagedSnoc(db: Db, subs: seq<nat>, n: nat)
    requires 1 <= n <= |subs|
    ensures var p := Staged(db, subs, n - 1);
            Staged(db, subs, n) == Db(p.records[p.nextId := Record(subs[n - 1], None)], p.nextId + 1)
    ensures Ids(db.nextId, n) == Ids(db.nextId, n - 1) + [db.nextId + n - 1]
  {
    WithNewSnoc(db.records, subs, n, db.nextId);
  }

  /** The loop inserts for the subscriptions before the first failure, in order, and fails if there is one. */
  lemma {:induction false} InsertsExactly(db: Db, subs: seq<nat>, stages: seq<Stage>, n: nat)
    requires n <= |subs|
    ensures var p := Inserts(db, subs, stages, n);
            && p.ids == Ids(db.nextId, |p.ids|)
            && p.db == Staged(db, subs, |p.ids|)
            && (forall i: nat :: i < |p.ids| ==> StageAt(stages, i) == Inserted)
            && (p.result != FnNil ==> |p.ids| < n && StageAt(stages, |p.ids|) != Inserted)
            && (p.result == FnPanic <==> |p.ids| < n && StageAt(stages, |p.ids|) == ExecPanicked)
  {
    if n > 0 {
      InsertsExactly(db, subs, stages, n - 1);
      StagedSnoc(db, subs, n);
    }
  }

  lemma WithNewSnoc(records: map<nat, Record>, subs: seq<nat>, n: nat, first: nat)
    requires 1 <= n <= |subs|
    ensures WithNew(records, subs[..n], first)
         == WithNew(records, subs[..n - 1], first)[first + n - 1 := Record(subs[n - 1], None)]
  {
    assert subs[..n][..n - 1] == subs[..n - 1];
  }

  /** Identifiers that were given out stay given out, whether their records are committed or not. */
  lemma SequenceKept(db: Db, env: TxEnv, subs: seq<nat>, stages: seq<Stage>)
    ensures var t := AfterTx(db, env, InsertAll(subs, stages));
            t.ids == Ids(db.nextId, |t.ids|) && t.db.nextId == db.nextId + |t.ids|
  {
    InsertsExactly(db, subs, stages, |subs|);
    assert Perform(db, InsertAll(subs, stages)) == Inserts(db, subs, stages, |subs|);
  }

  /** The callback succeeds exactly when every subscription's delivery is inserted. */
  lemma InsertsSucceedExactly(db: Db, subs: seq<nat>, stages: seq<Stage>)
    ensures Inserts(db, subs, stages, |subs|).result == FnNil <==> AllInserted(subs, stages)
  {
    InsertsExactly(db, subs, stages, |subs|);
  }

  /**
   * A transaction changes no record that is there except the one it responds to, and keeps the
   * records below the next identifier.
   */
  lemma TxKeepsRecords(db: Db, env: TxEnv, work: Work, id: nat)
    requires forall k :: k in db.records ==> k < db.nextId
    requires id in db.records
    ensures id in AfterTx(db, env, work).db.records
    ensures AfterTx(db, env, work).db.records[id] != db.records[id] ==> work.Respond? && work.id == id
    ensures forall k :: k in AfterTx(db, env, work).db.records ==> k < AfterTx(db, env, work).db.nextId
  {
    if work.InsertAll? {
      InsertsExactly(db, work.subs, work.stages, |work.subs|);
    }
  }
}
