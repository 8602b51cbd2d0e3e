/**
 * Webhook scheduling and delivery: webhooks/queue.go (the native queue) and webhooks/legacy.go.
 * `Step` says what one event does to the delivery table and the work queue.
 */
module Delivery {
  import opened Bytes
  import opened Transactions

  datatype Kind = Legacy | Native

  /** Attempts allowed per delivery, and per planning task of the legacy queue. */
  datatype Config = Config(kind: Kind, attempts: nat, planAttempts: nat) {
    predicate Valid() {
      attempts >= 1 && planAttempts >= 1
    }
  }

  /** A queued task: one delivery, or (legacy only) the creation of the deliveries of one event. */
  datatype Task =
    | Delivery(id: nat, sub: nat, attempts: nat)
    | Planning(subs: seq<nat>, attempts: nat)

  datatype Finished = Finished(task: Task, failed: bool)

  /** After a panic in a worker the process is gone: `crashed`, with what it was working on still queued. */
  datatype State = State(db: Db, queue: seq<Task>, finished: seq<Finished>, accepting: bool, crashed: bool)

  /** What the network does to one attempt, and how recording an answer goes. */
  datatype Attempt =
    | BadRequest
    | TransportError
    | BodyError
    | Answered(response: Response, accepted: bool, update: TxEnv)

  datatype Event =
    | Schedule(subs: seq<nat>, stages: seq<Stage>, tx: TxEnv)
    | Dispatch(attempt: Attempt, stages: seq<Stage>, tx: TxEnv)
    | Shutdown

  datatype Result = Success | Retryable | Fatal | Crash

  // ----- specification

  function NewTasks(ids: seq<nat>, subs: seq<nat>): (r: seq<Task>)
    requires |ids| == |subs|
    ensures |r| == |ids| && forall i :: 0 <= i < |r| ==> r[i] == Delivery(ids[i], subs[i], 0)
  {
    seq(|ids|, i requires 0 <= i < |ids| => Delivery(ids[i], subs[i], 0))
  }

  /** A queue that has shut down drops what is offered. */
  function Enqueue(s: State, tasks: seq<Task>): State {
    if s.accepting then s.(queue := s.queue + tasks) else s
  }

  /** Records for every subscription in one transaction, then a task for each. */
  function AfterPlan(s: State, subs: seq<nat>, stages: seq<Stage>, tx: TxEnv): (State, Returned) {
    var t := AfterTx(s.db, tx, InsertAll(subs, stages));
    (if t.returned == Nil then Enqueue(s.(db := t.db), NewTasks(t.ids, subs)) else s.(db := t.db), t.returned)
  }

  function AfterSchedule(cfg: Config, s: State, subs: seq<nat>, stages: seq<Stage>, tx: TxEnv): State {
    if subs == [] then s
    else if cfg.kind == Legacy then Enqueue(s, [Planning(subs, 0)])
    else AfterPlan(s, subs, stages, tx).0
  }

  /** The answers that ask for another attempt: 502, 503 and 504. */
  predicate AsksRetry(status: int) {
    502 <= status <= 504
  }

  function UpdateOf(db: Db, id: nat, attempt: Attempt): TxOutcome
    requires attempt.Answered?
  {
    AfterTx(db, attempt.update, Respond(id, attempt.response, attempt.accepted))
  }

  /** What `deliverPayload` returns. A legacy delivery whose answer could not be recorded is not repeated. */
  function ResultOf(kind: Kind, attempt: Attempt, db: Db, id: nat): Result {
    match attempt
    case BadRequest => Fatal
    case TransportError => Retryable
    case BodyError => Fatal
    case Answered(response, _, _) =>
      var returned := UpdateOf(db, id, attempt).returned;
      if returned == Panicked then Crash
      else if kind == Legacy && returned == Err then Success
      else if AsksRetry(response.status) then Retryable
      else Success
  }

  function PlanResult(returned: Returned): Result {
    match returned
    case Nil => Success
    case Err => Retryable
    case Panicked => Crash
  }

  function AfterAttempt(db: Db, id: nat, attempt: Attempt): Db {
    if attempt.Answered? then UpdateOf(db, id, attempt).db else db
  }

  /** Counts the attempt, then queues the work again or finishes it. */
  function Settle(bound: nat, s: State, task: Task, result: Result): State {
    var t := task.(attempts := task.attempts + 1);
    if result == Crash then s.(queue := [task] + s.queue, crashed := true)
    else if result == Success then s.(finished := s.finished + [Finished(t, false)])
    else if result == Retryable && t.attempts < bound then s.(queue := s.queue + [t])
    else s.(finished := s.finished + [Finished(t, true)])
  }

  function AfterDispatch(cfg: Config, s: State, attempt: Attempt, stages: seq<Stage>, tx: TxEnv): State {
    if s.queue == [] then s
    else
      var task, s' := s.queue[0], s.(queue := s.queue[1..]);
      match task
      case Planning(subs, _) =>
        var (planned, returned) := AfterPlan(s', subs, stages, tx);
        Settle(cfg.planAttempts, planned, task, PlanResult(returned))
      case Delivery(id, _, _) =>
        Settle(cfg.attempts, s'.(db := AfterAttempt(s.db, id, attempt)), task, ResultOf(cfg.kind, attempt, s.db, id))
  }

  function Step(cfg: Config, s: State, e: Event): State {
    if s.crashed then s
    else match e
    case Schedule(subs, stages, tx) => AfterSchedule(cfg, s, subs, stages, tx)
    case Dispatch(attempt, stages, tx) => AfterDispatch(cfg, s, attempt, stages, tx)
    case Shutdown => s.(accepting := false)
  }

  const EMPTY := State(Db(map[], 0), [], [], true, false)

  function Run(cfg: Config, s: State, events: seq<Event>): State {
    if events == [] then s else Step(cfg, Run(cfg, s, events[..|events| - 1]), events[|events| - 1])
  }

  // ----- the code

  class WebhookQueue {
    const config: Config
    const database: Database
    var queue: seq<Task>
    var finished: seq<Finished>
    var accepting: bool
    var crashed: bool

    ghost function View(): State
      reads this, database
    {
      State(database.committed, queue, finished, accepting, crashed)
    }

    ghost predicate Valid()
      reads this, database
    {
      !database.open
    }

    constructor (config: Config)
      ensures Valid() && this.config == config && View() == EMPTY && fresh(database)
    {
      this.config, queue, finished, accepting, crashed := config, [], [], true, false;
      database := new Database();
    }

    method Offer(task: Task)
      modifies `queue
      ensures View() == Enqueue(old(View()), [task])
    {
      if accepting {
        queue := queue + [task];
      }
    }

    /** The transaction and the enqueueing loop of `schedule`. */
    method Plan(subs: seq<nat>, stages: seq<Stage>, tx: TxEnv) returns (r: Returned)
      requires Valid()
      modifies this, database
      ensures Valid()
      ensures (View(), r) == AfterPlan(old(View()), subs, stages, tx)
    {
      var ids;
      ids, r := database.WithTx(tx, InsertAll(subs, stages));
      if r != Nil {
        return;
      }
      ghost var tasks := NewTasks(ids, subs);
      for i := 0 to |subs|
        invariant Valid()
        invariant database.committed == AfterTx(old(database.committed), tx, InsertAll(subs, stages)).db
        invariant View() == Enqueue(old(View()).(db := database.committed), tasks[..i])
      {
        Offer(Delivery(ids[i], subs[i], 0));
        assert tasks[..i + 1] == tasks[..i] + [tasks[i]];
      }
      assert tasks[..|subs|] == tasks;
    }

    method Schedule(subs: seq<nat>, stages: seq<Stage>, tx: TxEnv)
      requires Valid()
      modifies this, database
      ensures Valid()
      ensures View() == AfterSchedule(config, old(View()), subs, stages, tx)
    {
      if |subs| == 0 {
        return;
      }
      match config.kind {
        case Legacy => Offer(Planning(subs, 0));
        case Native => var _ := Plan(subs, stages, tx);
      }
    }

    method DeliverPayload(id: nat, attempt: Attempt) returns (result: Result)
      requires Valid()
      modifies database
      ensures Valid()
      ensures database.committed == AfterAttempt(old(database.committed), id, attempt)
      ensures result == ResultOf(config.kind, attempt, old(database.committed), id)
    {
      match attempt {
        case BadRequest => return Fatal;
        case TransportError => return Retryable;
        case BodyError => return Fatal;
        case Answered(response, accepted, update) =>
          var _, returned := database.WithTx(update, Respond(id, response, accepted));
          if returned == Panicked {
            return Crash;
          }
          if returned == Err && config.kind == Legacy {
            return Success;
          }
          if response.status == 502 || response.status == 503 || response.status == 504 {
            return Retryable;
          }
          return Success;
      }
    }

    method Dispatch(attempt: Attempt, stages: seq<Stage>, tx: TxEnv)
      requires Valid()
      modifies this, database
      ensures Valid()
      ensures View() == AfterDispatch(config, old(View()), attempt, stages, tx)
    {
      if |queue| == 0 {
        return;
      }
      var task := queue[0];
      queue := queue[1..];
      var result, bound;
      match task {
        case Planning(subs, _) =>
          var returned := Plan(subs, stages, tx);
          result, bound := PlanResult(returned), config.planAttempts;
        case Delivery(id, _, _) =>
          result := DeliverPayload(id, attempt);
          bound := config.attempts;
      }
      if result == Crash {
        queue, crashed := [task] + queue, true;
        return;
      }
      task := task.(attempts := task.attempts + 1);
      if result == Success {
        finished := finished + [Finished(task, false)];
      } else if result == Retryable && task.attempts < bound {
        queue := queue + [task];
      } else {
        finished := finished + [Finished(task, true)];
      }
    }
  }
}
