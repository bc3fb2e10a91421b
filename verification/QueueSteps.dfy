/**
  The upload queue as the event loop runs it: calls interleave at every await,
  the promise-chain lock decides who may enter, and the worker may die at any point.

  One step is one completed await (a storage read, an upload, a storage write) or
  one call arriving. Reads take a snapshot; writes store what was computed from it.
 */
module QueueSteps {
  import opened Prelude
  import opened QueueOps
  import opened QueueHistory

  datatype Phase =
    | Waiting                  // chained behind an earlier promise
    | Loading(second: bool)    // awaiting the first or the second store read
    | Uploading                // awaiting the answer to upload number |answers|
    | Saving(done: nat)        // `done` writes of the plan have been committed
    | Settled(result: Option<Result>)  // what it returned; None if it was rejected

  /** One critical section; `after` is the promise it is chained to, -1 for the initial resolved one. */
  datatype Task = Task(op: Op, after: int, phase: Phase, queue: seq<Item>, dead: seq<DeadItem>, answers: seq<Outcome>)

  /**
    The durable stores, the sections of the living worker, and the lock's tail.
    `log` records, for reasoning only, what each started section got done, and
    `epoch` is the length it had when this worker was spawned.
   */
  datatype Sys = Sys(stores: Stores, tasks: seq<Task>, tail: int, log: seq<Event>, epoch: nat)

  /** What can happen to a section that is running. */
  datatype Move = Load | Reply(outcome: Outcome) | Save | Finish | Reject

  datatype Label = Submit(op: Op) | Start(i: nat) | Section(i: nat, move: Move) | Crash

  function Boot(stores: Stores): Sys {
    Sys(stores, [], -1, [], 0)
  }

  predicate Running(p: Phase) {
    !p.Waiting? && !p.Settled?
  }

  /** The delivery loop still has an upload to await. */
  predicate NeedsUpload(items: seq<Item>, answers: seq<Outcome>) {
    |answers| < |items| && Revoked !in answers
  }

  /** The writes a section will make, from its own snapshots. */
  function TaskPlan(t: Task): seq<Commit> {
    Plan(t.op, t.answers, Stores(t.queue, t.dead))
  }

  /** What a section will return, from its own snapshots. */
  function TaskResult(t: Task): Result {
    ResultOf(t.op, t.answers, Stores(t.queue, t.dead))
  }

  /** A section after the store read it awaits. */
  function Loaded(t: Task, stores: Stores): Option<Task>
    requires t.phase.Loading?
  {
    match t.op
    case Enqueue(_, _, _) =>
      if t.phase.second then None else Some(t.(queue := stores.queue, phase := Saving(0)))
    case Flush =>
      if !t.phase.second then Some(t.(queue := stores.queue, phase := Loading(true)))
      else Some(t.(dead := stores.dead, phase := if NeedsUpload(t.queue, t.answers) then Uploading else Saving(0)))
    case RetryDead(key) =>
      if !t.phase.second then
        Some(t.(dead := stores.dead,
                phase := if FindDead(stores.dead, key) == |stores.dead| then Saving(0) else Loading(true)))
      else Some(t.(queue := stores.queue, phase := Saving(0)))
    case DiscardDead(_) =>
      if t.phase.second then None else Some(t.(dead := stores.dead, phase := Saving(0)))
  }

  /** A running section, its log entry and the stores. */
  datatype View = View(task: Task, entry: Event, stores: Stores)

  /** One awaited thing of a running section completes. */
  function Moved(v: View, move: Move): Option<View> {
    var t := v.task;
    match move
    case Load =>
      if !t.phase.Loading? then None
      else
        var loaded := Loaded(t, v.stores);
        if loaded.None? then None else Some(v.(task := loaded.value))
    case Reply(outcome) =>
      if !t.phase.Uploading? then None
      else
        var answers := t.answers + [outcome];
        var next := if NeedsUpload(t.queue, answers) then Uploading else Saving(0);
        Some(v.(task := t.(answers := answers, phase := next),
                entry := v.entry.(answers := v.entry.answers + [outcome])))
    case Save =>
      if !t.phase.Saving? || t.phase.done >= |TaskPlan(t)| then None
      else
        Some(View(t.(phase := Saving(t.phase.done + 1)), v.entry.(commits := v.entry.commits + 1),
                  Write(v.stores, TaskPlan(t)[t.phase.done])))
    case Finish =>
      if !t.phase.Saving? || t.phase.done != |TaskPlan(t)| then None
      else
        var result := Some(TaskResult(t));
        Some(v.(task := t.(phase := Settled(result)), entry := v.entry.(returned := result)))
    case Reject =>
      if !Running(t.phase) then None else Some(v.(task := t.(phase := Settled(None))))
  }

  /** The promise a section is chained behind has settled, well or not. */
  predicate Released(s: Sys, i: nat)
    requires i < |s.tasks|
  {
    var after := s.tasks[i].after;
    after == -1 || (0 <= after < |s.tasks| && s.tasks[after].phase.Settled?)
  }

  /** The state once section `i` looks like `v`. */
  function Install(s: Sys, i: nat, v: View): Sys
    requires i < |s.tasks| && s.log != []
  {
    s.(tasks := s.tasks[i := v.task], log := Init(s.log) + [v.entry], stores := v.stores)
  }

  /** One step, or None when it is not possible now. */
  function Step(s: Sys, l: Label): Option<Sys> {
    match l
    case Submit(op) =>
      Some(s.(tasks := s.tasks + [Task(op, s.tail, Waiting, [], [], [])], tail := |s.tasks|))
    case Start(i) =>
      if i < |s.tasks| && s.tasks[i].phase.Waiting? && Released(s, i)
      then Some(s.(tasks := s.tasks[i := s.tasks[i].(phase := Loading(false))],
                   log := s.log + [Ran(s.tasks[i].op, [], 0, None)]))
      else None
    case Section(i, move) =>
      if i < |s.tasks| && s.log != [] then
        var moved := Moved(View(s.tasks[i], Last(s.log), s.stores), move);
        if moved.None? then None else Some(Install(s, i, moved.value))
      else None
    case Crash =>
      Some(s.(tasks := [], tail := -1, epoch := |s.log|))
  }

  /** The state after a whole run, or None when some step of it was not possible. */
  function Exec(stores: Stores, run: seq<Label>): Option<Sys> {
    if run == [] then Some(Boot(stores))
    else match Exec(stores, Init(run))
      case None => None
      case Some(s) => Step(s, Last(run))
  }

  // ---- the invariant --------------------------------------------------------

  /** How many sections of this worker have begun. */
  function Started(s: Sys): int {
    |s.log| - s.epoch
  }

  /** The lock admits sections in submission order, each only after the one before settled. */
  ghost predicate InOrder(s: Sys) {
    && s.epoch <= |s.log| && Started(s) <= |s.tasks| && s.tail == |s.tasks| - 1
    && (forall i :: 0 <= i < |s.tasks| ==> s.tasks[i].after == i - 1)
    && (forall i :: Started(s) <= i < |s.tasks| ==> s.tasks[i].phase.Waiting? && s.tasks[i].answers == [])
    && (forall i :: 0 <= i < Started(s) ==> !s.tasks[i].phase.Waiting?)
    && (forall i :: 0 <= i < Started(s) - 1 ==> s.tasks[i].phase.Settled?)
    && (forall i :: 0 <= i < Started(s) ==> Records(s.log[s.epoch + i], s.tasks[i]))
  }

  /** The log entry is about this section, and says what it returned, if it did. */
  ghost predicate Records(e: Event, t: Task) {
    e.op == t.op && e.returned == if t.phase.Settled? then t.phase.result else None
  }

  /** The running section's snapshots are the stores as they were when it began. */
  ghost predicate Current(t: Task, e: Event, base: Stores) {
    && e.answers == t.answers
    && e.commits == (if t.phase.Saving? then t.phase.done else 0)
    && match t.phase
       case Loading(second) =>
         t.answers == []
         && (second ==>
               match t.op
               case Flush => t.queue == base.queue
               case RetryDead(key) => t.dead == base.dead && FindDead(base.dead, key) < |base.dead|
               case _ => false)
       case Uploading => t.op.Flush? && t.queue == base.queue && t.dead == base.dead && NeedsUpload(t.queue, t.answers)
       case Saving(done) =>
         && TaskPlan(t) == Plan(t.op, t.answers, base) && TaskResult(t) == ResultOf(t.op, t.answers, base)
         && done <= |TaskPlan(t)|
         && (t.op.Flush? ==> t.queue == base.queue && !NeedsUpload(t.queue, t.answers))
       case _ => true
  }

  /** The stores as the section that began last found them. */
  ghost function Base(init: Stores, s: Sys): Stores
    requires s.log != []
  {
    Replay(init, Init(s.log))
  }

  ghost predicate Faithful(init: Stores, s: Sys)
    requires InOrder(s)
  {
    && s.stores == Replay(init, s.log)
    && ReturnsAreComplete(init, s.log)
    && (Started(s) > 0 && Running(s.tasks[Started(s) - 1].phase) ==>
          Current(s.tasks[Started(s) - 1], Last(s.log), Base(init, s)))
  }

  ghost predicate Inv(init: Stores, s: Sys) {
    InOrder(s) && Faithful(init, s)
  }

  /** One more write of a plan. */
  lemma {:induction false} WriteNext(s: Stores, plan: seq<Commit>, k: nat)
    requires k < |plan|
    ensures WriteFirst(s, plan, k + 1) == Write(WriteFirst(s, plan, k), plan[k])
    decreases k
  {
    if k > 0 {
      WriteNext(Write(s, plan[0]), plan[1..], k - 1);
    }
  }

  /** What holds between a running section, its log entry and the stores, given what it found. */
  ghost predicate Consistent(v: View, base: Stores) {
    && Records(v.entry, v.task)
    && v.stores == After(base, v.entry)
    && (Running(v.task.phase) ==> Current(v.task, v.entry, base))
    && Returned(base, v.entry)
  }

  lemma LoadAgrees(v: View, base: Stores)
    requires Consistent(v, base) && Moved(v, Load).Some?
    ensures Consistent(Moved(v, Load).value, base)
  {
    assert After(base, v.entry) == base;
  }

  lemma ReplyAgrees(v: View, base: Stores, outcome: Outcome)
    requires Consistent(v, base) && Moved(v, Reply(outcome)).Some?
    ensures Consistent(Moved(v, Reply(outcome)).value, base)
  {
  }

  lemma SaveAgrees(v: View, base: Stores)
    requires Consistent(v, base) && Moved(v, Save).Some?
    ensures Consistent(Moved(v, Save).value, base)
  {
    var k := v.task.phase.done;
    WriteNext(base, TaskPlan(v.task), k);
    assert TaskPlan(v.task.(phase := Saving(k + 1))) == TaskPlan(v.task);
    assert TaskResult(v.task.(phase := Saving(k + 1))) == TaskResult(v.task);
  }

  /** Whatever a running section does, it writes the plan of an atomic run and nothing else. */
  lemma MoveAgrees(v: View, base: Stores, move: Move)
    requires Consistent(v, base) && Moved(v, move).Some?
    ensures Consistent(Moved(v, move).value, base)
    ensures var t := Moved(v, move).value.task; t.after == v.task.after && !t.phase.Waiting?
    ensures Running(v.task.phase)
  {
    match move
    case Load => LoadAgrees(v, base);
    case Reply(outcome) => ReplyAgrees(v, base, outcome);
    case Save => SaveAgrees(v, base);
    case Finish =>
    case Reject =>
  }

  /** Only the last started section can be running: the one that may read, upload and write. */
  lemma RunningIsLast(s: Sys, i: nat)
    requires InOrder(s) && i < |s.tasks| && Running(s.tasks[i].phase)
    ensures i == Started(s) - 1 && s.log != [] && Records(Last(s.log), s.tasks[i])
  {
    assert Records(s.log[s.epoch + i], s.tasks[i]);
  }

  lemma StartKeepsOrder(s: Sys, i: nat)
    requires InOrder(s) && Step(s, Start(i)).Some?
    ensures InOrder(Step(s, Start(i)).value) && i == Started(s)
  {
  }

  lemma StartKeepsInv(init: Stores, s: Sys, i: nat)
    requires Inv(init, s) && Step(s, Start(i)).Some?
    ensures Inv(init, Step(s, Start(i)).value)
  {
    StartKeepsOrder(s, i);
    var s' := Step(s, Start(i)).value;
    assert Init(s'.log) == s.log;
    assert Last(s'.log) == Ran(s.tasks[i].op, [], 0, None);
  }

  lemma InstallKeepsOrder(s: Sys, i: nat, v: View)
    requires InOrder(s) && i < |s.tasks| && i == Started(s) - 1 && s.log != []
    requires Records(v.entry, v.task) && v.task.after == s.tasks[i].after && !v.task.phase.Waiting?
    ensures InOrder(Install(s, i, v))
  {
  }

  lemma InstallKeepsInv(init: Stores, s: Sys, i: nat, v: View)
    requires Inv(init, s) && i < |s.tasks| && i == Started(s) - 1 && s.log != []
    requires Consistent(v, Base(init, s)) && v.task.after == s.tasks[i].after && !v.task.phase.Waiting?
    ensures Inv(init, Install(s, i, v))
  {
    InstallKeepsOrder(s, i, v);
    var s' := Install(s, i, v);
    assert Init(s'.log) == Init(s.log) && Last(s'.log) == v.entry;
  }

  /** The view of the running section is consistent with what it found. */
  lemma RunningIsConsistent(init: Stores, s: Sys, i: nat)
    requires Inv(init, s) && i < |s.tasks| && Running(s.tasks[i].phase)
    ensures i == Started(s) - 1 && s.log != []
    ensures Consistent(View(s.tasks[i], Last(s.log), s.stores), Base(init, s))
  {
    RunningIsLast(s, i);
  }

  lemma SectionKeepsInv(init: Stores, s: Sys, i: nat, move: Move)
    requires Inv(init, s) && Step(s, Section(i, move)).Some?
    ensures Inv(init, Step(s, Section(i, move)).value)
  {
    var v := View(s.tasks[i], Last(s.log), s.stores);
    RunningIsConsistent(init, s, i);
    MoveAgrees(v, Base(init, s), move);
    InstallKeepsInv(init, s, i, Moved(v, move).value);
  }

  lemma SubmitKeepsOrder(s: Sys, op: Op)
    requires InOrder(s)
    ensures InOrder(Step(s, Submit(op)).value)
  {
    var s' := Step(s, Submit(op)).value;
    forall i | 0 <= i < Started(s)
      ensures Records(s'.log[s'.epoch + i], s'.tasks[i])
    {
      assert Records(s.log[s.epoch + i], s.tasks[i]);
    }
  }

  lemma SubmitKeepsInv(init: Stores, s: Sys, op: Op)
    requires Inv(init, s)
    ensures Inv(init, Step(s, Submit(op)).value)
  {
    SubmitKeepsOrder(s, op);
    var s' := Step(s, Submit(op)).value;
    assert Started(s) > 0 ==> s'.tasks[Started(s) - 1] == s.tasks[Started(s) - 1];
  }

  lemma StepKeepsInv(init: Stores, s: Sys, l: Label)
    requires Inv(init, s) && Step(s, l).Some?
    ensures Inv(init, Step(s, l).value)
  {
    if l.Submit? {
      SubmitKeepsInv(init, s, l.op);
    } else if l.Start? {
      StartKeepsInv(init, s, l.i);
    } else if l.Section? {
      SectionKeepsInv(init, s, l.i, l.move);
    }
  }

  lemma {:induction false} ExecKeepsInv(init: Stores, run: seq<Label>)
    requires Exec(init, run).Some?
    ensures Inv(init, Exec(init, run).value)
  {
    if run != [] {
      ExecKeepsInv(init, Init(run));
      StepKeepsInv(init, Exec(init, Init(run)).value, Last(run));
    }
  }

  // ---- main results -----------------------------------------------------------

  /**
    Every interleaving leaves the stores as running the started sections one at a
    time, in submission order: each one that returned did its whole plan on what
    its predecessors left and returned the result of that, and each rejected or
    killed one did a prefix of it.
   */
  lemma InterleavingIsSerial(init: Stores, run: seq<Label>)
    requires Exec(init, run).Some?
    ensures var s := Exec(init, run).value;
      && s.stores == Replay(init, s.log) && ReturnsAreComplete(init, s.log)
      && s.epoch <= |s.log| && Started(s) <= |s.tasks|
      && (forall i :: 0 <= i < Started(s) ==> Records(s.log[s.epoch + i], s.tasks[i]))
      && (forall i :: Started(s) <= i < |s.tasks| ==> s.tasks[i].phase.Waiting?)
  {
    ExecKeepsInv(init, run);
  }

  lemma {:induction false} EachReturned(init: Stores, log: seq<Event>, n: nat)
    requires ReturnsAreComplete(init, log) && n < |log|
    ensures Returned(Before(init, log, n), log[n])
  {
    if n < |log| - 1 {
      EachReturned(init, Init(log), n);
      assert Init(log)[..n] == log[..n];
    } else {
      assert Init(log) == log[..n];
    }
  }

  /**
    In every interleaving a call that has returned was given the result of its atomic operation,
    run whole on the stores that its predecessors left.
   */
  lemma ReturnsItsAtomicResult(init: Stores, run: seq<Label>, i: nat)
    requires Exec(init, run).Some? && i < |Exec(init, run).value.tasks|
    requires var phase := Exec(init, run).value.tasks[i].phase; phase.Settled? && phase.result.Some?
    ensures var s := Exec(init, run).value;
      var n := s.epoch + i;
      && n < |s.log| && s.log[n].op == s.tasks[i].op
      && var found := Before(init, s.log, n);
      && s.tasks[i].phase.result.value == ResultOf(s.log[n].op, s.log[n].answers, found)
      && Before(init, s.log, n + 1) == Complete(s.log[n].op, s.log[n].answers, found)
  {
    ExecKeepsInv(init, run);
    var s := Exec(init, run).value;
    var n := s.epoch + i;
    assert Records(s.log[n], s.tasks[i]);
    EachReturned(init, s.log, n);
    assert Init(s.log[..n + 1]) == s.log[..n] && Last(s.log[..n + 1]) == s.log[n];
  }

  /** At most one critical section is ever running. */
  lemma MutualExclusion(init: Stores, run: seq<Label>, i: nat, j: nat)
    requires Exec(init, run).Some?
    requires i < |Exec(init, run).value.tasks| && Running(Exec(init, run).value.tasks[i].phase)
    requires j < |Exec(init, run).value.tasks| && Running(Exec(init, run).value.tasks[j].phase)
    ensures i == j
  {
    ExecKeepsInv(init, run);
    RunningIsLast(Exec(init, run).value, i);
    RunningIsLast(Exec(init, run).value, j);
  }

  /** The store invariant holds in every reachable state, at every commit point and after every crash. */
  lemma ReachableStoresAreGood(init: Stores, run: seq<Label>)
    requires Good(init) && Exec(init, run).Some?
    ensures Good(Exec(init, run).value.stores)
  {
    ExecKeepsInv(init, run);
    ReplayKeepsGood(init, Exec(init, run).value.log);
  }

  /** One step takes a key out of the stores only by a write that its section's verdicts, cap or discard justify. */
  lemma StepLosesOnlyDeparted(init: Stores, s: Sys, l: Label, key: string)
    requires Inv(init, s) && Step(s, l).Some?
    requires key in Keys(s.stores) && key !in Keys(Step(s, l).value.stores)
    ensures l.Section? && l.move.Save?
    ensures var s' := Step(s, l).value; s'.log != [] && key in Departed(Base(init, s'), Last(s'.log))
  {
    assert l.Section? && l.move.Save?;
    var base, v := Base(init, s), View(s.tasks[l.i], Last(s.log), s.stores);
    RunningIsConsistent(init, s, l.i);
    MoveAgrees(v, base, Save);
    var v' := Moved(v, Save).value;
    AfterInventsNothing(base, v.entry);
    AfterLosesNothing(base, v'.entry);
    assert Init(Install(s, l.i, v').log) == Init(s.log);
  }

  /** The state after the first `n` steps of a run. */
  function At(init: Stores, run: seq<Label>, n: nat): Option<Sys>
    requires n <= |run|
  {
    Exec(init, run[..n])
  }

  lemma {:induction false} PrefixRuns(init: Stores, run: seq<Label>, n: nat)
    requires n <= |run| && Exec(init, run).Some?
    ensures At(init, run, n).Some?
    ensures n < |run| ==> At(init, run, n + 1) == Step(At(init, run, n).value, run[n])
  {
    if n == |run| {
      assert run[..n] == run;
    } else {
      assert run[..n] == Init(run)[..n];
      PrefixRuns(init, Init(run), n);
      assert n + 1 < |run| ==> run[..n + 1] == Init(run)[..n + 1];
      assert n + 1 == |run| ==> run[..n + 1] == run && Init(run)[..n] == Init(run);
    }
  }

  ghost predicate StoredAt(init: Stores, run: seq<Label>, p: nat, key: string)
    requires p <= |run|
  {
    At(init, run, p).Some? && key in Keys(At(init, run, p).value.stores)
  }

  /** Step `n` takes the key out of the stores, by a write that is justified, and it is not stored again. */
  ghost predicate TakenOutAt(init: Stores, run: seq<Label>, n: nat, key: string) {
    && n < |run| && run[n].Section? && run[n].move.Save?
    && StoredAt(init, run, n, key)
    && At(init, run, n + 1).Some? && At(init, run, n + 1).value.log != []
    && key in Departed(Base(init, At(init, run, n + 1).value), Last(At(init, run, n + 1).value.log))
    && forall p :: n < p <= |run| ==> !StoredAt(init, run, p, key)
  }

  lemma TakenOutByStep(init: Stores, run: seq<Label>, n: nat, key: string)
    requires n < |run| && Exec(init, run).Some? && StoredAt(init, run, n, key) && !StoredAt(init, run, n + 1, key)
    ensures run[n].Section? && run[n].move.Save?
    ensures At(init, run, n + 1).Some? && At(init, run, n + 1).value.log != []
    ensures key in Departed(Base(init, At(init, run, n + 1).value), Last(At(init, run, n + 1).value.log))
  {
    PrefixRuns(init, run, n);
    PrefixRuns(init, run, n + 1);
    ExecKeepsInv(init, run[..n]);
    StepLosesOnlyDeparted(init, At(init, run, n).value, run[n], key);
  }

  ghost function StoredFlags(init: Stores, run: seq<Label>, key: string): (flags: seq<bool>)
    ensures |flags| == |run| + 1 && forall p :: 0 <= p < |flags| ==> flags[p] == StoredAt(init, run, p, key)
  {
    seq(|run| + 1, p requires 0 <= p <= |run| => StoredAt(init, run, p, key))
  }

  /**
    A key that was stored at some point of a run, crashes included, and is stored no longer was
    taken out by one step in between: a store write of a section whose own verdicts, cap or
    discard, on the stores that section found, account for that key.
   */
  lemma ReachableStoresLoseNothing(init: Stores, run: seq<Label>, m: nat, key: string) returns (n: nat)
    requires m < |run| && Exec(init, run).Some? && StoredAt(init, run, m, key)
    requires key !in Keys(Exec(init, run).value.stores)
    ensures m <= n && TakenOutAt(init, run, n, key)
  {
    assert run[..|run|] == run;
    var flags := StoredFlags(init, run, key);
    n := LastUp(flags, m);
    TakenOutByStep(init, run, n, key);
    assert forall p :: n < p <= |run| ==> !flags[p];
  }

  lemma FinishedIsComplete(v: View, base: Stores)
    requires Consistent(v, base) && Moved(v, Finish).Some?
    ensures v.stores == Complete(v.task.op, v.task.answers, base)
  {
  }

  lemma FinishingEnqueueIsPending(init: Stores, s: Sys, i: nat)
    requires Inv(init, s) && Step(s, Section(i, Finish)).Some? && s.tasks[i].op.Enqueue?
    ensures Pending(s.stores.queue, s.tasks[i].op.key)
  {
    RunningIsConsistent(init, s, i);
    FinishedIsComplete(View(s.tasks[i], Last(s.log), s.stores), Base(init, s));
    CompleteEnqueue(Base(init, s), s.tasks[i].op, s.tasks[i].answers);
  }

  lemma FinishKeepsStores(s: Sys, i: nat)
    requires Step(s, Section(i, Finish)).Some?
    ensures i < |s.tasks| && Step(s, Section(i, Finish)).value.stores == s.stores
  {
  }

  /** When an enqueue returns, its key is pending in the durable queue. */
  lemma ReturnedEnqueueIsPending(init: Stores, run: seq<Label>, i: nat)
    requires Exec(init, run).Some? && Step(Exec(init, run).value, Section(i, Finish)).Some?
    ensures i < |Exec(init, run).value.tasks|
    ensures var s := Exec(init, run).value;
      s.tasks[i].op.Enqueue? ==> Pending(Step(s, Section(i, Finish)).value.stores.queue, s.tasks[i].op.key)
  {
    ExecKeepsInv(init, run);
    var s := Exec(init, run).value;
    FinishKeepsStores(s, i);
    if s.tasks[i].op.Enqueue? { FinishingEnqueueIsPending(init, s, i); }
  }

  /**
    In every run a flush asks for an upload exactly as long as the queue it found has an item left
    and no answer was a revocation: it asks only then, and does not return before.
   */
  lemma FlushAsksUntilRevoked(init: Stores, run: seq<Label>, i: nat, outcome: Outcome)
    requires Exec(init, run).Some?
    requires i < |Exec(init, run).value.tasks| && Exec(init, run).value.tasks[i].op.Flush?
    ensures AsksUntilRevoked(init, Exec(init, run).value, i, outcome)
  {
    ExecKeepsInv(init, run);
    var s := Exec(init, run).value;
    if Running(s.tasks[i].phase) {
      RunningIsConsistent(init, s, i);
      ViewAsksUntilRevoked(View(s.tasks[i], Last(s.log), s.stores), Base(init, s), outcome);
    }
  }

  ghost predicate AsksUntilRevoked(init: Stores, s: Sys, i: nat, outcome: Outcome) {
    && (Step(s, Section(i, Reply(outcome))).Some? ==>
          s.log != [] && AsksForMore(Last(s.log).answers, Base(init, s).queue))
    && (Step(s, Section(i, Finish)).Some? ==>
          s.log != [] && !AsksForMore(Last(s.log).answers, Base(init, s).queue))
  }

  /** An item is left that was not asked for, and no answer so far was a revocation. */
  predicate AsksForMore(answers: seq<Outcome>, queue: seq<Item>) {
    |answers| < |queue| && forall k :: 0 <= k < |answers| ==> answers[k] != Revoked
  }

  lemma ViewAsksUntilRevoked(v: View, base: Stores, outcome: Outcome)
    requires Consistent(v, base) && v.task.op.Flush?
    ensures Moved(v, Reply(outcome)).Some? ==> AsksForMore(v.entry.answers, base.queue)
    ensures Moved(v, Finish).Some? ==> !AsksForMore(v.entry.answers, base.queue)
  {
  }

  /** The next thing a running section awaits; `outcome` is the server's choice. */
  function NextMove(t: Task, outcome: Outcome): Move {
    match t.phase
    case Loading(_) => Load
    case Uploading => Reply(outcome)
    case Saving(k) => if k < |TaskPlan(t)| then Save else Finish
    case _ => Reject
  }

  /** The step that moves the worker on when some section has not settled. */
  function NextLabel(s: Sys, outcome: Outcome): Label
    requires 0 <= Started(s) <= |s.tasks|
  {
    var i := Started(s) - 1;
    if i < 0 || s.tasks[i].phase.Settled? then Start(i + 1) else Section(i, NextMove(s.tasks[i], outcome))
  }

  lemma NextMoveIsPossible(v: View, base: Stores, outcome: Outcome)
    requires Consistent(v, base) && Running(v.task.phase)
    ensures Moved(v, NextMove(v.task, outcome)).Some?
  {
  }

  lemma NextStartIsPossible(s: Sys)
    requires InOrder(s) && Started(s) < |s.tasks|
    requires Started(s) == 0 || s.tasks[Started(s) - 1].phase.Settled?
    ensures Step(s, Start(Started(s))).Some?
  {
    assert Released(s, Started(s));
  }

  lemma RunningCanMove(init: Stores, s: Sys, outcome: Outcome, i: nat)
    requires Inv(init, s) && i < |s.tasks| && Running(s.tasks[i].phase)
    ensures Step(s, Section(i, NextMove(s.tasks[i], outcome))).Some?
  {
    RunningIsConsistent(init, s, i);
    NextMoveIsPossible(View(s.tasks[i], Last(s.log), s.stores), Base(init, s), outcome);
  }

  /** While a section is unsettled, the next step is that of a running section or the start of the next. */
  lemma NextLabelCases(s: Sys, outcome: Outcome, i: nat)
    requires InOrder(s) && i < |s.tasks| && !s.tasks[i].phase.Settled?
    ensures var l, c := NextLabel(s, outcome), Started(s) - 1;
      if l.Section? then l.i == c < |s.tasks| && Running(s.tasks[c].phase) && l.move == NextMove(s.tasks[c], outcome)
      else l == Start(c + 1) && c + 1 < |s.tasks| && (c == -1 || s.tasks[c].phase.Settled?)
  {
  }

  lemma NextIsPossible(init: Stores, s: Sys, outcome: Outcome, i: nat)
    requires Inv(init, s) && i < |s.tasks| && !s.tasks[i].phase.Settled?
    ensures Step(s, NextLabel(s, outcome)).Some?
  {
    NextLabelCases(s, outcome, i);
    var c := Started(s) - 1;
    if c >= 0 && Running(s.tasks[c].phase) {
      RunningCanMove(init, s, outcome, c);
    } else {
      NextStartIsPossible(s);
    }
  }

  /** A rejected section never blocks the next: while any section is unsettled, some step is possible. */
  lemma NeverWedged(init: Stores, run: seq<Label>, outcome: Outcome, i: nat)
    requires Exec(init, run).Some?
    requires i < |Exec(init, run).value.tasks| && !Exec(init, run).value.tasks[i].phase.Settled?
    ensures var s := Exec(init, run).value;
      0 <= Started(s) <= |s.tasks| && Step(s, NextLabel(s, outcome)).Some?
  {
    ExecKeepsInv(init, run);
    NextIsPossible(init, Exec(init, run).value, outcome, i);
  }

  /** What a section still has to do, most significant first: its phase, its uploads, its writes. */
  datatype Work = Work(phase: nat, uploads: int, writes: int)

  function WorkOf(t: Task): Work {
    Work(match t.phase
         case Waiting => 4 case Loading(second) => (if second then 2 else 3) case Uploading => 1 case _ => 0,
         |t.queue| - |t.answers|,
         match t.phase case Saving(k) => |TaskPlan(t)| - k case _ => -1)
  }

  predicate LessWork(a: Work, b: Work) {
    || a.phase < b.phase
    || (a.phase == b.phase
        && (0 <= a.uploads < b.uploads || (a.uploads == b.uploads && a.writes < b.writes && -1 <= a.writes)))
  }

  /** Every move of a running section leaves it strictly less to do, so no section runs for ever. */
  lemma MovesMakeProgress(v: View, base: Stores, move: Move)
    requires Consistent(v, base) && Moved(v, move).Some?
    ensures LessWork(WorkOf(Moved(v, move).value.task), WorkOf(v.task))
  {
    if move.Save? {
      assert TaskPlan(v.task.(phase := Saving(v.task.phase.done + 1))) == TaskPlan(v.task);
    }
  }

  /** In every run, the section that moves is left with less to do. */
  lemma StepsMakeProgress(init: Stores, run: seq<Label>, i: nat, move: Move)
    requires Exec(init, run + [Section(i, move)]).Some?
    ensures Exec(init, run).Some? && i < |Exec(init, run).value.tasks|
    ensures i < |Exec(init, run + [Section(i, move)]).value.tasks|
    ensures LessWork(WorkOf(Exec(init, run + [Section(i, move)]).value.tasks[i]),
                     WorkOf(Exec(init, run).value.tasks[i]))
  {
    var run' := run + [Section(i, move)];
    assert Init(run') == run && Last(run') == Section(i, move);
    ExecKeepsInv(init, run);
    var s := Exec(init, run).value;
    RunningIsConsistent(init, s, i);
    MovesMakeProgress(View(s.tasks[i], Last(s.log), s.stores), Base(init, s), move);
  }

  // ---- every submitted section settles ----------------------------------------------------

  /** What the section that began last still has to do. */
  function CurrentWork(s: Sys): Work
    requires 0 <= Started(s) <= |s.tasks|
  {
    if Started(s) == 0 then Work(0, 0, -1) else WorkOf(s.tasks[Started(s) - 1])
  }

  /** The worker is moved on, one next step after the other; the server answers as it likes. */
  predicate Drives(s: Sys, more: seq<Label>, server: Sys -> Outcome)
    decreases |more|
  {
    more == [] ||
    (&& 0 <= Started(s) <= |s.tasks| && more[0] == NextLabel(s, server(s)) && Step(s, more[0]).Some?
     && Drives(Step(s, more[0]).value, more[1..], server))
  }

  function RunFrom(s: Sys, more: seq<Label>): Option<Sys>
    decreases |more|
  {
    if more == [] then Some(s)
    else match Step(s, more[0])
      case None => None
      case Some(s') => RunFrom(s', more[1..])
  }

  /** Settled sections stay as they are; one that settles returns. */
  predicate MovesOn(s: Sys, s': Sys) {
    |s'.tasks| == |s.tasks|
    && forall i :: 0 <= i < |s.tasks| ==>
         s'.tasks[i].phase == s.tasks[i].phase
           || (!s.tasks[i].phase.Settled? && (s'.tasks[i].phase.Settled? ==> s'.tasks[i].phase.result.Some?))
  }

  predicate AllSettled(s: Sys) {
    forall i :: 0 <= i < |s.tasks| ==> s.tasks[i].phase.Settled?
  }

  /** A next move settles a section only by letting it return. */
  lemma NextMoveReturns(v: View, base: Stores, outcome: Outcome)
    requires Consistent(v, base) && Running(v.task.phase)
    ensures Moved(v, NextMove(v.task, outcome)).Some?
    ensures var t := Moved(v, NextMove(v.task, outcome)).value.task;
      LessWork(WorkOf(t), WorkOf(v.task)) && (t.phase.Settled? ==> t.phase.result.Some?)
  {
    NextMoveIsPossible(v, base, outcome);
    MovesMakeProgress(v, base, NextMove(v.task, outcome));
  }

  lemma InstallMovesOn(s: Sys, i: nat, v: View)
    requires i < |s.tasks| && s.log != [] && i == Started(s) - 1 && !s.tasks[i].phase.Settled?
    requires v.task.phase.Settled? ==> v.task.phase.result.Some?
    ensures MovesOn(s, Install(s, i, v)) && Started(Install(s, i, v)) == Started(s)
    ensures 0 <= Started(s) <= |s.tasks| && CurrentWork(Install(s, i, v)) == WorkOf(v.task)
  {
  }

  /** The state `s'` is nearer to having every section settled. */
  predicate Nearer(s: Sys, s': Sys) {
    && MovesOn(s, s') && 0 <= Started(s) <= |s.tasks| && 0 <= Started(s') <= |s'.tasks|
    && (Started(s') > Started(s) || (Started(s') == Started(s) && LessWork(CurrentWork(s'), CurrentWork(s))))
  }

  lemma StartMovesOn(s: Sys, i: nat)
    requires InOrder(s) && Step(s, Start(i)).Some?
    ensures Nearer(s, Step(s, Start(i)).value)
  {
    StartKeepsOrder(s, i);
  }

  lemma SectionMovesOn(init: Stores, s: Sys, outcome: Outcome, c: nat)
    requires Inv(init, s) && c < |s.tasks| && Running(s.tasks[c].phase)
    ensures Step(s, Section(c, NextMove(s.tasks[c], outcome))).Some?
    ensures Nearer(s, Step(s, Section(c, NextMove(s.tasks[c], outcome))).value)
  {
    RunningIsConsistent(init, s, c);
    var v := View(s.tasks[c], Last(s.log), s.stores);
    NextMoveReturns(v, Base(init, s), outcome);
    InstallMovesOn(s, c, Moved(v, NextMove(v.task, outcome)).value);
  }

  lemma NextStepMovesOn(init: Stores, s: Sys, outcome: Outcome, i: nat)
    requires Inv(init, s) && i < |s.tasks| && !s.tasks[i].phase.Settled?
    ensures Step(s, NextLabel(s, outcome)).Some?
    ensures Nearer(s, Step(s, NextLabel(s, outcome)).value)
  {
    NextLabelCases(s, outcome, i);
    var c := Started(s) - 1;
    if c >= 0 && Running(s.tasks[c].phase) {
      SectionMovesOn(init, s, outcome, c);
    } else {
      NextStartIsPossible(s);
      StartMovesOn(s, c + 1);
    }
  }

  lemma MovesOnFurther(s: Sys, s': Sys, s'': Sys)
    requires MovesOn(s, s') && MovesOn(s', s'')
    ensures MovesOn(s, s'')
  {
  }

  lemma DrivesFurther(s: Sys, rest: seq<Label>, server: Sys -> Outcome)
    requires 0 <= Started(s) <= |s.tasks| && Step(s, NextLabel(s, server(s))).Some?
    requires Drives(Step(s, NextLabel(s, server(s))).value, rest, server)
    ensures Drives(s, [NextLabel(s, server(s))] + rest, server)
    ensures RunFrom(s, [NextLabel(s, server(s))] + rest) == RunFrom(Step(s, NextLabel(s, server(s))).value, rest)
  {
    assert ([NextLabel(s, server(s))] + rest)[1..] == rest;
  }

  lemma {:induction false} SettlesFrom(init: Stores, s: Sys, server: Sys -> Outcome) returns (more: seq<Label>)
    requires Inv(init, s)
    ensures Drives(s, more, server) && RunFrom(s, more).Some?
    ensures AllSettled(RunFrom(s, more).value) && MovesOn(s, RunFrom(s, more).value)
    decreases |s.tasks| - Started(s), CurrentWork(s).phase, CurrentWork(s).uploads, CurrentWork(s).writes + 1
  {
    if AllSettled(s) {
      more := [];
    } else {
      var i: nat :| i < |s.tasks| && !s.tasks[i].phase.Settled?;
      NextStepMovesOn(init, s, server(s), i);
      var l := NextLabel(s, server(s));
      StepKeepsInv(init, s, l);
      var s' := Step(s, l).value;
      var rest := SettlesFrom(init, s', server);
      DrivesFurther(s, rest, server);
      MovesOnFurther(s, s', RunFrom(s', rest).value);
      more := [l] + rest;
    }
  }

  /**
    From every reachable state, whatever the server answers, moving the worker on step by step
    settles every submitted section after finitely many steps, and each that had not settled
    returns.
   */
  lemma EverySectionSettles(init: Stores, run: seq<Label>, server: Sys -> Outcome) returns (more: seq<Label>)
    requires Exec(init, run).Some?
    ensures var s := Exec(init, run).value;
      && Drives(s, more, server) && RunFrom(s, more).Some?
      && AllSettled(RunFrom(s, more).value)
      && MovesOn(s, RunFrom(s, more).value)
  {
    ExecKeepsInv(init, run);
    more := SettlesFrom(init, Exec(init, run).value, server);
  }
}
