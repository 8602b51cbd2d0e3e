/** Assertion chains over a shared error log: valid/valid.go. */
module Validation {
  import opened Bytes

  const FIELD: Str := [102, 105, 101, 108, 100]  // "field"

  /** What a recorded error says. */
  datatype Entry = Entry(message: Str, extensions: Option<map<Str, Str>>)

  function Attach(e: Entry, field: Str): Entry {
    e.(extensions := Some((if e.extensions.Some? then e.extensions.value else map[])[FIELD := field]))
  }

  class GqlError {
    var message: Str
    var extensions: Option<map<Str, Str>>

    constructor (message: Str)
      ensures this.message == message && extensions == None
    {
      this.message, extensions := message, None;
    }

    ghost function View(): Entry
      reads this
    {
      Entry(message, extensions)
    }
  }

  /** The result of an assertion: its validation context, and the error it led to, if any. */
  datatype ValidationError = ValidationError(valid: Validation, err: GqlError?)

  class Validation {
    /** The errors of the GraphQL context. */
    var log: seq<GqlError>

    ghost predicate Valid()
      reads this
    {
      forall i, j :: 0 <= i < j < |log| ==> log[i] != log[j]
    }

    ghost function View(): (v: seq<Entry>)
      reads this, log
      ensures |v| == |log|
    {
      seq(|log|, i requires 0 <= i < |log| reads this, log => log[i].View())
    }

    constructor ()
      ensures Valid() && log == []
    {
      log := [];
    }

    method Ok() returns (ok: bool)
      ensures ok <==> log == []
    {
      ok := |log| == 0;
    }

    method Error(msg: Str) returns (r: ValidationError)
      requires Valid()
      modifies this
      ensures Valid()
      ensures r.valid == this && r.err != null && fresh(r.err)
      ensures log == old(log) + [r.err]
      ensures View() == old(View()) + [Entry(msg, None)]
    {
      var err := new GqlError(msg);
      log := log + [err];
      r := ValidationError(this, err);
    }

    method Expect(cond: bool, msg: Str) returns (r: ValidationError)
      requires Valid()
      modifies this
      ensures Valid() && r.valid == this
      ensures cond ==> r.err == null && log == old(log) && View() == old(View())
      ensures !cond ==> r.err != null && fresh(r.err) && log == old(log) + [r.err]
      ensures !cond ==> View() == old(View()) + [Entry(msg, None)]
    {
      if cond {
        return ValidationError(this, null);
      }
      r := Error(msg);
    }
  }

  method WithField(err: ValidationError, field: Str) returns (r: ValidationError)
    requires err.valid.Valid()
    modifies err.err
    ensures r == err
    ensures err.err == null ==> err.valid.View() == old(err.valid.View())
    ensures forall i :: 0 <= i < |err.valid.log| && err.valid.log[i] == err.err ==>
              err.valid.View() == old(err.valid.View())[i := Attach(old(err.valid.View())[i], field)]
  {
    r := err;
    if err.err == null {
      return;
    }
    if err.err.extensions.None? {
      err.err.extensions := Some(map[]);
    }
    err.err.extensions := Some(err.err.extensions.value[FIELD := field]);
  }

  method And(err: ValidationError, cond: bool, msg: Str) returns (r: ValidationError)
    requires err.valid.Valid()
    modifies err.valid
    ensures err.valid.Valid() && r.valid == err.valid
    ensures err.err != null || cond ==>
              r.err == err.err && err.valid.log == old(err.valid.log) && err.valid.View() == old(err.valid.View())
    ensures err.err == null && !cond ==>
              && r.err != null && fresh(r.err) && err.valid.log == old(err.valid.log) + [r.err]
              && err.valid.View() == old(err.valid.View()) + [Entry(msg, None)]
  {
    if err.err != null {
      return err;
    }
    r := err.valid.Expect(cond, msg);
  }

  // ----- programs of interleaved chains

  /** An instruction starts a chain, or continues the `k`th one. */
  datatype Instr =
    | Start(cond: bool, msg: Str)
    | Also(k: nat, cond: bool, msg: Str)
    | Field(k: nat, field: Str)

  /** The log, and for each chain the position of its error. */
  datatype State = State(log: seq<Entry>, chains: seq<Option<nat>>)

  predicate Consistent(s: State) {
    forall k :: 0 <= k < |s.chains| && s.chains[k].Some? ==> s.chains[k].value < |s.log|
  }

  function Step(s: State, i: Instr): (r: State)
    requires Consistent(s)
    ensures Consistent(r)
  {
    match i
    case Start(cond, msg) =>
      if cond then s.(chains := s.chains + [None])
      else State(s.log + [Entry(msg, None)], s.chains + [Some(|s.log|)])
    case Also(k, cond, msg) =>
      if k >= |s.chains| || s.chains[k].Some? || cond then s
      else State(s.log + [Entry(msg, None)], s.chains[k := Some(|s.log|)])
    case Field(k, field) =>
      if k >= |s.chains| || s.chains[k].None? then s
      else
        var at := s.chains[k].value;
        s.(log := s.log[at := Attach(s.log[at], field)])
  }

  const EMPTY := State([], [])

  function Run(prog: seq<Instr>): (r: State)
    ensures Consistent(r)
  {
    if prog == [] then EMPTY else Step(Run(prog[..|prog| - 1]), prog[|prog| - 1])
  }

  ghost predicate Matches(v: Validation, handles: seq<ValidationError>, s: State)
    reads v, v.log
  {
    && v.Valid() && v.View() == s.log && Consistent(s) && |handles| == |s.chains|
    && forall k :: 0 <= k < |handles| ==>
         && handles[k].valid == v
         && handles[k].err == if s.chains[k].None? then null else v.log[s.chains[k].value]
  }

  method Execute(v: Validation, handles: seq<ValidationError>, i: Instr, ghost s: State)
    returns (r: seq<ValidationError>)
    requires Matches(v, handles, s)
    modifies v, v.log
    ensures Matches(v, r, Step(s, i))
    ensures forall j :: 0 <= j < |v.log| ==> v.log[j] in old(v.log) || fresh(v.log[j])
  {
    r := handles;
    match i {
      case Start(cond, msg) =>
        var h := v.Expect(cond, msg);
        r := r + [h];
      case Also(k, cond, msg) =>
        if k < |r| {
          var h := And(r[k], cond, msg);
          r := r[k := h];
        }
      case Field(k, field) =>
        if k < |r| {
          var h := WithField(r[k], field);
          r := r[k := h];
        }
    }
  }

  /** A whole program on a fresh log. */
  method Program(prog: seq<Instr>) returns (v: Validation, handles: seq<ValidationError>, ok: bool)
    ensures fresh(v) && Matches(v, handles, Run(prog))
    ensures ok <==> Run(prog).log == []
  {
    v := new Validation();
    handles := [];
    for i := 0 to |prog|
      invariant fresh(v) && fresh(v.log)
      invariant Matches(v, handles, Run(prog[..i]))
    {
      assert prog[..i + 1][..i] == prog[..i];
      handles := Execute(v, handles, prog[i], Run(prog[..i]));
    }
    assert prog[..|prog|] == prog;
    ok := v.Ok();
  }

  // ----- one chain by itself

  datatype Link = Check(cond: bool, msg: Str) | Named(field: Str)

  /** The links that an instruction adds to the `k`th of `n` chains. */
  function Adds(i: Instr, n: nat, k: nat): seq<Link> {
    match i
    case Start(cond, msg) => if n == k then [Check(cond, msg)] else []
    case Also(j, cond, msg) => if j == k < n then [Check(cond, msg)] else []
    case Field(j, field) => if j == k < n then [Named(field)] else []
  }

  /** The links of the `k`th chain, in order. */
  function Project(prog: seq<Instr>, k: nat): seq<Link> {
    if prog == [] then []
    else
      var init := prog[..|prog| - 1];
      Project(init, k) + Adds(prog[|prog| - 1], Starts(init), k)
  }

  function Starts(prog: seq<Instr>): nat {
    if prog == [] then 0 else Starts(prog[..|prog| - 1]) + if prog[|prog| - 1].Start? then 1 else 0
  }

  predicate AllHold(links: seq<Link>) {
    forall i :: 0 <= i < |links| && links[i].Check? ==> links[i].cond
  }

  /** A chain's error after one more link. */
  function Continue(v: Option<Entry>, l: Link): Option<Entry> {
    match l
    case Check(cond, msg) => if v.Some? || cond then v else Some(Entry(msg, None))
    case Named(field) => if v.Some? then Some(Attach(v.value, field)) else None
  }

  /** The error a chain leads to; None if it leads to none. */
  function Verdict(links: seq<Link>): Option<Entry> {
    if links == [] then None else Continue(Verdict(links[..|links| - 1]), links[|links| - 1])
  }

  /** `f` is the index of the first failing check. */
  predicate FirstFailure(links: seq<Link>, f: nat) {
    f < |links| && links[f].Check? && !links[f].cond && AllHold(links[..f])
  }

  function LastField(links: seq<Link>): Option<Str> {
    if links == [] then None
    else if links[|links| - 1].Named? then Some(links[|links| - 1].field)
    else LastField(links[..|links| - 1])
  }

  lemma {:induction false} VerdictNone(links: seq<Link>)
    ensures Verdict(links) == None <==> AllHold(links)
  {
    if links != [] {
      var init, l := links[..|links| - 1], links[|links| - 1];
      VerdictNone(init);
      assert links == init + [l];
      assert AllHold(links) <==> AllHold(init) && (l.Check? ==> l.cond);
    }
  }

  /** A chain's error carries the first failing message and the last field named after that failure. */
  lemma {:induction false} VerdictExactly(links: seq<Link>, f: nat)
    requires FirstFailure(links, f)
    ensures var last := LastField(links[f + 1..]);
            Verdict(links) == Some(Entry(links[f].msg, if last.None? then None else Some(map[FIELD := last.value])))
    decreases |links|
  {
    var init, l := links[..|links| - 1], links[|links| - 1];
    if f == |links| - 1 {
      assert links[..f] == init;
      VerdictNone(init);
    } else {
      assert init[..f] == links[..f];
      VerdictExactly(init, f);
      var rest := links[f + 1..];
      assert rest[..|rest| - 1] == init[f + 1..] && rest[|rest| - 1] == l;
      if l.Named? {
        assert map[][FIELD := l.field] == map[FIELD := l.field];
        assert forall x :: map[FIELD := x][FIELD := l.field] == map[FIELD := l.field];
      }
    }
  }

  // ----- interleaved chains do not disturb each other

  lemma {:induction false} ChainCount(prog: seq<Instr>)
    ensures |Run(prog).chains| == Starts(prog)
  {
    if prog != [] {
      ChainCount(prog[..|prog| - 1]);
    }
  }

  lemma {:induction false} NotStarted(prog: seq<Instr>, k: nat)
    requires k >= Starts(prog)
    ensures Project(prog, k) == []
  {
    if prog != [] {
      NotStarted(prog[..|prog| - 1], k);
    }
  }

  /** No two chains share an error. */
  ghost predicate Separate(s: State) {
    forall j, k :: 0 <= j < k < |s.chains| && s.chains[j].Some? && s.chains[k].Some? ==>
      s.chains[j].value != s.chains[k].value
  }

  function Failed(chains: seq<Option<nat>>): nat {
    if chains == [] then 0 else Failed(chains[..|chains| - 1]) + if chains[|chains| - 1].Some? then 1 else 0
  }

  lemma {:induction false} FailedUpdate(chains: seq<Option<nat>>, k: nat, at: nat)
    requires k < |chains| && chains[k].None?
    ensures Failed(chains[k := Some(at)]) == Failed(chains) + 1
  {
    var n, updated := |chains| - 1, chains[k := Some(at)];
    if k < n {
      FailedUpdate(chains[..n], k, at);
      assert updated[..n] == chains[..n][k := Some(at)];
    } else {
      assert updated[..n] == chains[..n];
    }
  }

  lemma StepSeparate(s: State, i: Instr)
    requires Consistent(s) && Separate(s) && |s.log| == Failed(s.chains)
    ensures Separate(Step(s, i)) && |Step(s, i).log| == Failed(Step(s, i).chains)
  {
    var r := Step(s, i);
    if i.Start? {
      assert r.chains[..|s.chains|] == s.chains;
    } else if i.Also? && |r.log| > |s.log| {
      FailedUpdate(s.chains, i.k, |s.log|);
    }
  }

  lemma {:induction false} RunSeparate(prog: seq<Instr>)
    ensures Separate(Run(prog)) && |Run(prog).log| == Failed(Run(prog).chains)
  {
    if prog != [] {
      RunSeparate(prog[..|prog| - 1]);
      StepSeparate(Run(prog[..|prog| - 1]), prog[|prog| - 1]);
    }
  }

  /** The error a chain has in a state. */
  function ErrorOf(s: State, k: nat): Option<Entry>
    requires Consistent(s) && k < |s.chains|
  {
    if s.chains[k].None? then None else Some(s.log[s.chains[k].value])
  }

  lemma VerdictSnoc(links: seq<Link>, l: Link)
    ensures Verdict(links + [l]) == Continue(Verdict(links), l)
  {
    assert (links + [l])[..|links|] == links;
  }

  /** An instruction continues its own chain and leaves the errors of the others as they are. */
  lemma StepErrors(s: State, i: Instr, k: nat)
    requires Consistent(s) && Separate(s) && k < |s.chains|
    ensures var own := Adds(i, |s.chains|, k);
            ErrorOf(Step(s, i), k) == if own == [] then ErrorOf(s, k) else Continue(ErrorOf(s, k), own[0])
  {
  }

  /**
   * However chains are interleaved, each one's error is what the chain by itself leads to: the other
   * chains neither add to it nor change it.
   */
  lemma {:induction false} ChainsIndependent(prog: seq<Instr>, k: nat)
    requires k < |Run(prog).chains|
    ensures ErrorOf(Run(prog), k) == Verdict(Project(prog, k))
  {
    var init, i := prog[..|prog| - 1], prog[|prog| - 1];
    var links := Project(init, k);
    ChainCount(init);
    if k < Starts(init) {
      ChainsIndependent(init, k);
      RunSeparate(init);
      StepErrors(Run(init), i, k);
      if Adds(i, Starts(init), k) == [] {
        assert links + [] == links;
      } else {
        VerdictSnoc(links, Adds(i, Starts(init), k)[0]);
      }
    } else {
      NotStarted(init, k);
      assert i.Start? && k == Starts(init);
      VerdictSnoc([], Check(i.cond, i.msg));
      assert [] + [Check(i.cond, i.msg)] == [Check(i.cond, i.msg)];
    }
  }

  /** Every entry of the log is the error of some chain. */
  lemma {:induction false} EntriesOwned(prog: seq<Instr>, at: nat) returns (k: nat)
    requires at < |Run(prog).log|
    ensures k < |Run(prog).chains| && Run(prog).chains[k] == Some(at)
  {
    var init, i := prog[..|prog| - 1], prog[|prog| - 1];
    var s := Run(init);
    if at < |s.log| {
      k := EntriesOwned(init, at);
    } else {
      k := if i.Start? then |s.chains| else i.k;
    }
  }

  /** No check of the `k`th chain fails. */
  predicate Holds(prog: seq<Instr>, k: nat) {
    AllHold(Project(prog, k))
  }

  /** How many of the first `n` chains have a failing check. */
  function Failing(prog: seq<Instr>, n: nat): nat {
    if n == 0 then 0 else Failing(prog, n - 1) + if Holds(prog, n - 1) then 0 else 1
  }

  lemma ChainFails(prog: seq<Instr>, k: nat)
    requires k < |Run(prog).chains|
    ensures Run(prog).chains[k].None? <==> Holds(prog, k)
  {
    ChainsIndependent(prog, k);
    VerdictNone(Project(prog, k));
  }

  lemma {:induction false} FailedIsFailing(prog: seq<Instr>, chains: seq<Option<nat>>, n: nat)
    requires chains == Run(prog).chains && n <= |chains|
    ensures Failed(chains[..n]) == Failing(prog, n)
  {
    if n > 0 {
      assert chains[..n][..n - 1] == chains[..n - 1];
      FailedIsFailing(prog, chains, n - 1);
      ChainFails(prog, n - 1);
    }
  }

  /** The log has exactly one entry for each chain with a failing check. */
  lemma OneEntryPerFailingChain(prog: seq<Instr>)
    ensures |Run(prog).log| == Failing(prog, Starts(prog))
  {
    ChainCount(prog);
    RunSeparate(prog);
    FailedIsFailing(prog, Run(prog).chains, Starts(prog));
    assert Run(prog).chains[..Starts(prog)] == Run(prog).chains;
  }

  lemma {:induction false} FailingNone(prog: seq<Instr>, n: nat)
    ensures Failing(prog, n) == 0 <==> forall k :: 0 <= k < n ==> Holds(prog, k)
  {
    if n > 0 {
      FailingNone(prog, n - 1);
    }
  }

  /** `Ok` says true exactly when no check of any chain fails. */
  lemma OkExactly(prog: seq<Instr>)
    ensures Run(prog).log == [] <==> forall k :: 0 <= k < Starts(prog) ==> Holds(prog, k)
  {
    OneEntryPerFailingChain(prog);
    FailingNone(prog, Starts(prog));
  }
}
