/** The single-writer queue as a state machine. A step is a piece of code that the event loop runs
    without interruption: a submit or close under the lifecycle lock, a part of a turn of the worker
    task, the cancellation of a task, or the end of the closer's wait.

    The model admits more interleavings than the code: `get` only suspends on an empty queue, so with a
    job queued the code goes from `Enter` or `Finish` straight to the next `Take`, whereas here any other
    step may come between. What holds for every run here holds for those of the code. */
module WriterQueue {

  /** How an operation ends: with a value, with an exception, or with KeyboardInterrupt/SystemExit. */
  datatype Outcome<R> = Value(result: R) | Error(message: string) | Fatal

  type Operation<!S(!new), !R(!new)> = S -> (S, Outcome<R>)

  /** A completion future; `Rejected` is the "worker crashed or stopped" error. */
  datatype Future<R> = Pending | Resolved(result: R) | Failed(message: string) | Rejected | Cancelled

  datatype Entry = Job(id: nat) | Sentinel

  datatype StopReason = BySentinel | Crashed | NeverEntered

  /** One worker task: created, waiting on `get`, running a job, or done. */
  datatype Worker = NotStarted | Waiting | Executing(job: nat) | Stopped(reason: StopReason)

  /** The call of `close` that closed the queue. */
  datatype Closing = NotClosing | Awaiting | Returned | Raised

  /** The write history: an operation that ran to its end, or one cut off by cancellation after
      leaving the store in some state `after`. */
  datatype Event<!S(!new), !R(!new)> =
    | Ran(job: nat, op: Operation<S, R>)
    | Interrupted(job: nat, op: Operation<S, R>, after: S)

  /** `jobs` are the accepted operations in acceptance order; `workers` are all tasks ever created,
      the last one being `_worker_task`. `head`, `log` and `drained` are history: how many jobs have
      left the queue, what ran, and what was rejected without running. */
  datatype State<!S(!new), !R(!new)> = State(
    store: S,
    jobs: seq<Operation<S, R>>,
    futures: seq<Future<R>>,
    queue: seq<Entry>,
    workers: seq<Worker>,
    closed: bool,
    closing: Closing,
    head: nat,
    log: seq<Event<S, R>>,
    drained: seq<nat>)

  datatype Step<!S(!new), !R(!new)> =
    | Submit(op: Operation<S, R>)
    | CancelCaller(job: nat)
    | Enter(worker: nat)
    | CancelUnstarted(worker: nat)
    | Take(worker: nat)
    | Finish(worker: nat)
    | CancelWorker(worker: nat, after: S)
    | Close
    | CloseEnds

  ghost function Initial<S(!new), R(!new)>(store: S): State<S, R> {
    State(store, [], [], [], [], false, NotClosing, 0, [], [])
  }

  /** Settling a future the way the code guards it: a future that is already done is left alone. */
  ghost function Settle<R(!new)>(futures: seq<Future<R>>, job: nat, f: Future<R>): seq<Future<R>>
    requires job < |futures|
  {
    if futures[job] == Pending then futures[job := f] else futures
  }

  /** The ids from `lo` up to `hi`. */
  ghost function Ids(lo: nat, hi: nat): seq<nat>
    requires lo <= hi
  {
    seq(hi - lo, k => lo + k)
  }

  /** The worker's `finally`: everything still queued is rejected, and the task is done. */
  ghost function Drain<S(!new), R(!new)>(s: State<S, R>, worker: nat, reason: StopReason): State<S, R>
    requires worker < |s.workers| && s.head <= |s.jobs| == |s.futures|
  {
    s.(futures := seq(|s.futures|, j requires 0 <= j < |s.futures| =>
                        if j >= s.head && s.futures[j] == Pending then Rejected else s.futures[j]),
       queue := [],
       workers := s.workers[worker := Stopped(reason)],
       drained := s.drained + Ids(s.head, |s.jobs|),
       head := |s.jobs|)
  }

  /** `_ensure_worker_locked`. */
  ghost function EnsureWorker(workers: seq<Worker>): seq<Worker> {
    if workers == [] || workers[|workers| - 1].Stopped? then workers + [NotStarted] else workers
  }

  ghost predicate Shaped<S(!new), R(!new)>(s: State<S, R>) {
    s.head <= |s.jobs| == |s.futures| && forall w | 0 <= w < |s.workers| :: s.workers[w].Executing? ==>
        s.workers[w].job < |s.jobs|
  }

  /** One step; a step that is not enabled changes nothing. */
  ghost function Next<S(!new), R(!new)>(s: State<S, R>, step: Step<S, R>): State<S, R>
    requires Shaped(s)
  {
    match step
    case Submit(op) =>
      if s.closed then s
      else s.(jobs := s.jobs + [op], futures := s.futures + [Pending], queue := s.queue + [Job(|s.jobs|)],
              workers := EnsureWorker(s.workers))
    case CancelCaller(j) =>
      if j < |s.jobs| then s.(futures := Settle(s.futures, j, Cancelled)) else s
    case Enter(w) =>
      if w < |s.workers| && s.workers[w] == NotStarted then s.(workers := s.workers[w := Waiting]) else s
    case CancelUnstarted(w) =>
      if w < |s.workers| && s.workers[w] == NotStarted then s.(workers := s.workers[w := Stopped(NeverEntered)]) else s
    case Take(w) =>
      if !(w < |s.workers| && s.workers[w] == Waiting && s.queue != []) then s
      else if s.queue[0] == Sentinel then Drain(s.(queue := s.queue[1..]), w, BySentinel)
      else if s.head < |s.jobs| then
        s.(queue := s.queue[1..], head := s.head + 1, workers := s.workers[w := Executing(s.queue[0].id)])
      else s
    case Finish(w) =>
      if w < |s.workers| && s.workers[w].Executing? then FinishJob(s, w) else s
    case CancelWorker(w, after) =>
      if !(w < |s.workers|) then s
      else if s.workers[w] == Waiting then Drain(s, w, Crashed)
      else if s.workers[w].Executing? then InterruptJob(s, w, after)
      else s
    case Close =>
      if s.closed then s
      else if s.workers == [] then s.(closed := true, closing := Returned)
      else s.(closed := true, queue := s.queue + [Sentinel], closing := Awaiting)
    case CloseEnds =>
      if s.closing == Awaiting && s.workers != [] && s.workers[|s.workers| - 1].Stopped? then
        s.(closing := if s.workers[|s.workers| - 1].reason == BySentinel then Returned else Raised)
      else s
  }

  /** `_execute_queued_job` ran the operation to its end. */
  ghost function FinishJob<S(!new), R(!new)>(s: State<S, R>, w: nat): State<S, R>
    requires Shaped(s) && w < |s.workers| && s.workers[w].Executing?
  {
    var j := s.workers[w].job;
    var (after, outcome) := s.jobs[j](s.store);
    var t := s.(store := after, log := s.log + [Ran(j, s.jobs[j])]);
    match outcome
    case Value(r) => t.(futures := Settle(s.futures, j, Resolved(r)), workers := s.workers[w := Waiting])
    case Error(m) => t.(futures := Settle(s.futures, j, Failed(m)), workers := s.workers[w := Waiting])
    case Fatal => Drain(t.(futures := Settle(s.futures, j, Rejected)), w, Crashed)
  }

  /** The worker task was cancelled inside the operation. */
  ghost function InterruptJob<S(!new), R(!new)>(s: State<S, R>, w: nat, after: S): State<S, R>
    requires Shaped(s) && w < |s.workers| && s.workers[w].Executing?
  {
    var j := s.workers[w].job;
    Drain(s.(store := after, log := s.log + [Interrupted(j, s.jobs[j], after)],
             futures := Settle(s.futures, j, Rejected)), w, Crashed)
  }

  // ----- the sequential reference -----

  /** The store after executing the history one operation after another. */
  ghost function Sequential<S(!new), R(!new)>(store: S, log: seq<Event<S, R>>): S {
    if log == [] then store
    else
      var before := Sequential(store, log[..|log| - 1]);
      match log[|log| - 1]
      case Ran(_, op) => op(before).0
      case Interrupted(_, _, after) => after
  }

  /** Job `j` is entry `k` of the history, and run there sequentially it has the outcome `o`. */
  ghost predicate RanWith<S(!new), R(!new)>(store: S, log: seq<Event<S, R>>, k: int, j: nat, o: Outcome<R>) {
    0 <= k < |log| && log[k].Ran? && log[k].job == j && log[k].op(Sequential(store, log[..k])).1 == o
  }

  /** A returned result or error is the one sequential execution gives. */
  ghost predicate Explained<S(!new), R(!new)>(store: S, log: seq<Event<S, R>>, j: nat, f: Future<R>) {
    && (f.Resolved? ==> exists k :: RanWith(store, log, k, j, Value(f.result)))
    && (f.Failed? ==> exists k :: RanWith(store, log, k, j, Error(f.message)))
  }

  // ----- the invariant -----

  /** The only worker that may still be alive. */
  ghost function Current<S(!new), R(!new)>(s: State<S, R>): Worker {
    if s.workers == [] then Stopped(NeverEntered) else s.workers[|s.workers| - 1]
  }

  /** The queue holds exactly the jobs from `head` on, in order, and after them at most the sentinel. */
  ghost predicate QueueInOrder<S(!new), R(!new)>(s: State<S, R>) {
    && s.head <= |s.jobs|
    && |s.jobs| - s.head <= |s.queue| <= |s.jobs| - s.head + (if s.closed then 1 else 0)
    && (forall k | 0 <= k < |s.jobs| - s.head :: s.queue[k] == Job(s.head + k))
    && (forall k | |s.jobs| - s.head <= k < |s.queue| :: s.queue[k] == Sentinel)
  }

  /** At most one worker is alive, it runs the job taken last, and a stopped one left nothing behind
      unless it never entered its loop. */
  ghost predicate OneWorker<S(!new), R(!new)>(s: State<S, R>) {
    && (forall w | 0 <= w < |s.workers| - 1 :: s.workers[w].Stopped?)
    && (s.workers == [] ==> s.jobs == [])
    && (Current(s).Executing? ==> s.head > 0 && Current(s).job == s.head - 1)
    && (Current(s).Stopped? && s.head < |s.jobs| ==> Current(s).reason == NeverEntered)
    && (s.closing != NotClosing ==> s.closed)
    && (s.closing == Returned ==> s.head == |s.jobs| && Current(s).Stopped?)
  }

  /** The history is in acceptance order and matches the accepted operations. */
  ghost predicate LogInOrder<S(!new), R(!new)>(s: State<S, R>) {
    && (forall k | 0 <= k < |s.log| :: s.log[k].job < s.head <= |s.jobs| && s.log[k].op == s.jobs[s.log[k].job])
    && (forall i, k | 0 <= i < k < |s.log| :: s.log[i].job < s.log[k].job)
    && (Current(s).Executing? ==> forall k | 0 <= k < |s.log| :: s.log[k].job < Current(s).job)
  }

  ghost predicate Settled<S(!new), R(!new)>(s: State<S, R>) {
    && |s.futures| == |s.jobs|
    && (forall j | 0 <= j < |s.jobs| ::
          if j >= s.head || Current(s) == Executing(j) then s.futures[j] in {Pending, Cancelled}
          else s.futures[j] != Pending)
  }

  ghost predicate Sequenced<S(!new), R(!new)>(store: S, s: State<S, R>) {
    && s.store == Sequential(store, s.log)
    && (forall j | 0 <= j < |s.futures| :: Explained(store, s.log, j, s.futures[j]))
  }

  ghost predicate Inv<S(!new), R(!new)>(store: S, s: State<S, R>) {
    QueueInOrder(s) && OneWorker(s) && LogInOrder(s) && Settled(s) && Sequenced(store, s)
  }

  // ----- every step keeps it -----

  lemma ExplainedGrows<S(!new), R(!new)>(store: S, log: seq<Event<S, R>>, e: Event<S, R>, j: nat, f: Future<R>)
    requires Explained(store, log, j, f)
    ensures Explained(store, log + [e], j, f)
  {
    if f.Resolved? {
      var k :| RanWith(store, log, k, j, Value(f.result));
      assert (log + [e])[..k] == log[..k];
      assert RanWith(store, log + [e], k, j, Value(f.result));
    }
    if f.Failed? {
      var k :| RanWith(store, log, k, j, Error(f.message));
      assert (log + [e])[..k] == log[..k];
      assert RanWith(store, log + [e], k, j, Error(f.message));
    }
  }

  /** Steps that run nothing leave the sequential history alone. */
  lemma SequencedCarries<S(!new), R(!new)>(store: S, s: State<S, R>, t: State<S, R>)
    requires Sequenced(store, s) && t.store == s.store && t.log == s.log
    requires forall j | 0 <= j < |t.futures| ::
               t.futures[j] in {Pending, Cancelled, Rejected} || (j < |s.futures| && t.futures[j] == s.futures[j])
    ensures Sequenced(store, t)
  {
    forall j | 0 <= j < |t.futures| ensures Explained(store, t.log, j, t.futures[j]) {
      assert t.futures[j] in {Pending, Cancelled, Rejected} || Explained(store, s.log, j, s.futures[j]);
    }
  }

  /** The part of the invariant that speaks of queue, workers and futures only. */
  ghost predicate Structure<S(!new), R(!new)>(s: State<S, R>) {
    QueueInOrder(s) && OneWorker(s) && LogInOrder(s) && Settled(s)
  }

  lemma SubmitStructure<S(!new), R(!new)>(s: State<S, R>, op: Operation<S, R>)
    requires Structure(s)
    ensures Structure(Next(s, Submit(op)))
  {
    assert s.closed ==> Next(s, Submit(op)) == s;
  }

  lemma SubmitKeeps<S(!new), R(!new)>(store: S, s: State<S, R>, op: Operation<S, R>)
    requires Inv(store, s)
    ensures Inv(store, Next(s, Submit(op)))
  {
    SubmitStructure(s, op);
    SequencedCarries(store, s, Next(s, Submit(op)));
  }

  lemma CloseStructure<S(!new), R(!new)>(s: State<S, R>, step: Step<S, R>)
    requires Structure(s) && (step.Close? || step.CloseEnds?)
    ensures Structure(Next(s, step))
  {
  }

  lemma CloseKeeps<S(!new), R(!new)>(store: S, s: State<S, R>, step: Step<S, R>)
    requires Inv(store, s) && (step.Close? || step.CloseEnds?)
    ensures Inv(store, Next(s, step))
  {
    CloseStructure(s, step);
    SequencedCarries(store, s, Next(s, step));
  }

  lemma CallerCancelStructure<S(!new), R(!new)>(s: State<S, R>, j: nat)
    requires Structure(s)
    ensures Structure(Next(s, CancelCaller(j)))
  {
  }

  lemma CallerCancelKeeps<S(!new), R(!new)>(store: S, s: State<S, R>, j: nat)
    requires Inv(store, s)
    ensures Inv(store, Next(s, CancelCaller(j)))
  {
    CallerCancelStructure(s, j);
    SequencedCarries(store, s, Next(s, CancelCaller(j)));
  }

  lemma EnterStructure<S(!new), R(!new)>(s: State<S, R>, w: nat, into: Worker)
    requires Structure(s) && w < |s.workers| && s.workers[w] == NotStarted && into in {Waiting, Stopped(NeverEntered)}
    ensures Structure(s.(workers := s.workers[w := into]))
  {
    assert w == |s.workers| - 1;
  }

  lemma EnterKeeps<S(!new), R(!new)>(store: S, s: State<S, R>, w: nat)
    requires Inv(store, s)
    ensures Inv(store, Next(s, Enter(w)))
    ensures Inv(store, Next(s, CancelUnstarted(w)))
  {
    if w < |s.workers| && s.workers[w] == NotStarted {
      EnterStructure(s, w, Waiting);
      EnterStructure(s, w, Stopped(NeverEntered));
      SequencedCarries(store, s, Next(s, Enter(w)));
      SequencedCarries(store, s, Next(s, CancelUnstarted(w)));
    }
  }

  /** What the worker leaves behind before it drains the queue: the history is in order, everything taken
      from the queue is settled, and nothing else is. */
  ghost predicate Drainable<S(!new), R(!new)>(s: State<S, R>) {
    && s.head <= |s.jobs| == |s.futures| && s.workers != []
    && (forall v | 0 <= v < |s.workers| - 1 :: s.workers[v].Stopped?)
    && (s.closing != NotClosing ==> s.closed)
    && (forall k | 0 <= k < |s.log| :: s.log[k].job < s.head && s.log[k].op == s.jobs[s.log[k].job])
    && (forall i, k | 0 <= i < k < |s.log| :: s.log[i].job < s.log[k].job)
    && (forall j | 0 <= j < s.head :: s.futures[j] != Pending)
    && (forall j | s.head <= j < |s.jobs| :: s.futures[j] in {Pending, Cancelled})
  }

  lemma DrainStructure<S(!new), R(!new)>(s: State<S, R>, w: nat, reason: StopReason)
    requires Drainable(s) && w == |s.workers| - 1
    ensures Structure(Drain(s, w, reason))
  {
  }

  /** Draining keeps everything that was true once the current job's future was settled. */
  lemma DrainKeeps<S(!new), R(!new)>(store: S, s: State<S, R>, w: nat, reason: StopReason)
    requires Drainable(s) && w == |s.workers| - 1 && Sequenced(store, s)
    ensures Inv(store, Drain(s, w, reason))
  {
    DrainStructure(s, w, reason);
    SequencedCarries(store, s, Drain(s, w, reason));
  }

  lemma WaitingIsDrainable<S(!new), R(!new)>(s: State<S, R>, t: State<S, R>)
    requires Structure(s) && Current(s) == Waiting && t == s.(queue := t.queue)
    ensures Drainable(t)
  {
  }

  lemma TakeStructure<S(!new), R(!new)>(s: State<S, R>, w: nat)
    requires Structure(s) && w < |s.workers| && s.workers[w] == Waiting && s.queue != [] && s.queue[0].Job?
    ensures Structure(Next(s, Take(w)))
  {
    assert w == |s.workers| - 1 && s.queue[0] == Job(s.head);
  }

  lemma TakeKeeps<S(!new), R(!new)>(store: S, s: State<S, R>, w: nat)
    requires Inv(store, s)
    ensures Inv(store, Next(s, Take(w)))
  {
    if w < |s.workers| && s.workers[w] == Waiting && s.queue != [] {
      if s.queue[0] == Sentinel {
        SentinelDrains(store, s, w);
      } else {
        TakeStructure(s, w);
        SequencedCarries(store, s, Next(s, Take(w)));
      }
    }
  }

  lemma SentinelDrains<S(!new), R(!new)>(store: S, s: State<S, R>, w: nat)
    requires Inv(store, s) && w < |s.workers| && s.workers[w] == Waiting && s.queue != []
    ensures Inv(store, Drain(s.(queue := s.queue[1..]), w, BySentinel))
  {
    assert w == |s.workers| - 1;
    var t := s.(queue := s.queue[1..]);
    WaitingIsDrainable(s, t);
    SequencedCarries(store, s, t);
    DrainKeeps(store, t, w, BySentinel);
  }

  /** A finished or interrupted operation extends the sequential history by one entry. */
  lemma LogGrows<S(!new), R(!new)>(store: S, s: State<S, R>, e: Event<S, R>, after: S)
    requires Inv(store, s) && Current(s).Executing? && e.job == Current(s).job && e.op == s.jobs[e.job]
    requires after == if e.Ran? then e.op(s.store).0 else e.after
    ensures var t := s.(store := after, log := s.log + [e]);
            && Sequenced(store, t)
            && (forall k | 0 <= k < |t.log| :: t.log[k].job < t.head && t.log[k].op == t.jobs[t.log[k].job])
            && (forall i, k | 0 <= i < k < |t.log| :: t.log[i].job < t.log[k].job)
            && (e.Ran? ==> RanWith(store, t.log, |s.log|, e.job, e.op(s.store).1))
  {
    assert (s.log + [e])[..|s.log|] == s.log;
    forall j | 0 <= j < |s.futures| ensures Explained(store, s.log + [e], j, s.futures[j]) {
      ExplainedGrows(store, s.log, e, j, s.futures[j]);
    }
  }

  /** The state after one more history entry `e` for the running job, with its future settled by `f`. */
  ghost function Entered<S(!new), R(!new)>(s: State<S, R>, e: Event<S, R>, after: S, f: Future<R>): State<S, R>
    requires e.job < |s.futures|
  {
    s.(store := after, log := s.log + [e], futures := Settle(s.futures, e.job, f))
  }

  lemma EnteredIsDrainable<S(!new), R(!new)>(s: State<S, R>, e: Event<S, R>, after: S, f: Future<R>)
    requires Structure(s) && Current(s).Executing? && e.job == Current(s).job && e.op == s.jobs[e.job] && f != Pending
    ensures Drainable(Entered(s, e, after, f))
  {
    var t := Entered(s, e, after, f);
    assert t.log[|s.log|] == e;
  }

  /** With what it should be told, the new entry explains its future, and the others stay explained. */
  lemma EnteredIsSequenced<S(!new), R(!new)>(store: S, s: State<S, R>, e: Event<S, R>, after: S, f: Future<R>)
    requires Inv(store, s) && Current(s).Executing? && e.job == Current(s).job && e.op == s.jobs[e.job]
    requires after == if e.Ran? then e.op(s.store).0 else e.after
    requires f.Resolved? ==> e.Ran? && e.op(s.store).1 == Value(f.result)
    requires f.Failed? ==> e.Ran? && e.op(s.store).1 == Error(f.message)
    ensures Sequenced(store, Entered(s, e, after, f))
  {
    LogGrows(store, s, e, after);
    var t := Entered(s, e, after, f);
    forall j | 0 <= j < |t.futures| ensures Explained(store, t.log, j, t.futures[j]) {
      if j == e.job && t.futures[j] == f {
        assert e.Ran? ==> RanWith(store, t.log, |s.log|, j, e.op(s.store).1);
      } else {
        assert Explained(store, s.log + [e], j, s.futures[j]);
      }
    }
  }

  lemma GoOnStructure<S(!new), R(!new)>(s: State<S, R>, t: State<S, R>)
    requires Structure(s) && Current(s).Executing? && Drainable(t)
    requires t == s.(store := t.store, log := t.log, futures := t.futures)
    ensures var w := |s.workers| - 1; Structure(t.(workers := t.workers[w := Waiting]))
  {
  }

  /** The job ended with a result or an ordinary exception, and the worker goes on. */
  lemma SettledKeeps<S(!new), R(!new)>(store: S, s: State<S, R>, f: Future<R>)
    requires Inv(store, s) && Current(s).Executing?
    requires var (_, outcome) := s.jobs[Current(s).job](s.store);
             (outcome.Value? && f == Resolved(outcome.result)) || (outcome.Error? && f == Failed(outcome.message))
    ensures var w, j := |s.workers| - 1, Current(s).job;
            Inv(store, s.(store := s.jobs[j](s.store).0, log := s.log + [Ran(j, s.jobs[j])],
                          futures := Settle(s.futures, j, f), workers := s.workers[w := Waiting]))
  {
    var w, j := |s.workers| - 1, Current(s).job;
    var e, after := Ran(j, s.jobs[j]), s.jobs[j](s.store).0;
    var t := Entered(s, e, after, f);
    EnteredIsDrainable(s, e, after, f);
    EnteredIsSequenced(store, s, e, after, f);
    GoOnStructure(s, t);
    SequencedCarries(store, t, t.(workers := t.workers[w := Waiting]));
  }

  /** The worker stops at the running job, which is rejected. */
  lemma StoppedKeeps<S(!new), R(!new)>(store: S, s: State<S, R>, w: nat, e: Event<S, R>, after: S)
    requires Inv(store, s) && w == |s.workers| - 1 && Current(s).Executing?
    requires e.job == Current(s).job && e.op == s.jobs[e.job] && after == if e.Ran? then e.op(s.store).0 else e.after
    ensures Inv(store, Drain(Entered(s, e, after, Rejected), w, Crashed))
  {
    EnteredIsDrainable(s, e, after, Rejected);
    EnteredIsSequenced(store, s, e, after, Rejected);
    DrainKeeps(store, Entered(s, e, after, Rejected), w, Crashed);
  }

  lemma FatalKeeps<S(!new), R(!new)>(store: S, s: State<S, R>, w: nat)
    requires Inv(store, s) && w < |s.workers| && s.workers[w].Executing?
    ensures var j := s.workers[w].job;
            var t := s.(store := s.jobs[j](s.store).0, log := s.log + [Ran(j, s.jobs[j])]);
            Inv(store, Drain(t.(futures := Settle(s.futures, j, Rejected)), w, Crashed))
  {
    var j := s.workers[w].job;
    StoppedKeeps(store, s, w, Ran(j, s.jobs[j]), s.jobs[j](s.store).0);
  }

  lemma FinishKeeps<S(!new), R(!new)>(store: S, s: State<S, R>, w: nat)
    requires Inv(store, s)
    ensures Inv(store, Next(s, Finish(w)))
  {
    InvIsShaped(store, s);
    if w < |s.workers| && s.workers[w].Executing? {
      FinishJobKeeps(store, s, w);
    }
  }

  lemma FinishJobKeeps<S(!new), R(!new)>(store: S, s: State<S, R>, w: nat)
    requires Inv(store, s) && Shaped(s) && w < |s.workers| && s.workers[w].Executing?
    ensures Inv(store, FinishJob(s, w))
  {
    assert w == |s.workers| - 1;
    match s.jobs[s.workers[w].job](s.store).1
    case Value(r) => SettledKeeps(store, s, Resolved(r));
    case Error(m) => SettledKeeps(store, s, Failed(m));
    case Fatal => FatalKeeps(store, s, w);
  }

  lemma InterruptKeeps<S(!new), R(!new)>(store: S, s: State<S, R>, w: nat, after: S)
    requires Inv(store, s) && w < |s.workers| && s.workers[w].Executing?
    ensures Inv(store, InterruptJob(s, w, after))
  {
    var j := s.workers[w].job;
    StoppedKeeps(store, s, w, Interrupted(j, s.jobs[j], after), after);
  }

  lemma CancelKeeps<S(!new), R(!new)>(store: S, s: State<S, R>, w: nat, after: S)
    requires Inv(store, s)
    ensures Inv(store, Next(s, CancelWorker(w, after)))
  {
    if w < |s.workers| && s.workers[w] == Waiting {
      WaitingIsDrainable(s, s);
      DrainKeeps(store, s, w, Crashed);
    } else if w < |s.workers| && s.workers[w].Executing? {
      InterruptKeeps(store, s, w, after);
    }
  }

  lemma StepKeeps<S(!new), R(!new)>(store: S, s: State<S, R>, step: Step<S, R>)
    requires Inv(store, s)
    ensures Inv(store, Next(s, step))
  {
    match step
    case Submit(op) => SubmitKeeps(store, s, op);
    case Take(w) => TakeKeeps(store, s, w);
    case Finish(w) => FinishKeeps(store, s, w);
    case CancelWorker(w, after) => CancelKeeps(store, s, w, after);
    case Close => CloseKeeps(store, s, step);
    case CloseEnds => CloseKeeps(store, s, step);
    case CancelCaller(j) => CallerCancelKeeps(store, s, j);
    case Enter(w) => EnterKeeps(store, s, w);
    case CancelUnstarted(w) => EnterKeeps(store, s, w);
  }

  lemma InitialHolds<S(!new), R(!new)>(store: S)
    ensures Inv(store, Initial<S, R>(store))
  {
  }

  /** The state after a run of steps from a fresh queue on `store`. */
  ghost function Run<S(!new), R(!new)>(store: S, steps: seq<Step<S, R>>): State<S, R> {
    if steps == [] then Initial(store)
    else
      var before := Run(store, steps[..|steps| - 1]);
      if Shaped(before) then Next(before, steps[|steps| - 1]) else before
  }

  lemma InvIsShaped<S(!new), R(!new)>(store: S, s: State<S, R>)
    requires Inv(store, s)
    ensures Shaped(s)
  {
  }

  /** The invariant holds after every run. */
  lemma {:induction false} RunHolds<S(!new), R(!new)>(store: S, steps: seq<Step<S, R>>)
    ensures Inv(store, Run(store, steps)) && Shaped(Run(store, steps))
    decreases |steps|
  {
    if steps == [] {
      InitialHolds<S, R>(store);
    } else {
      RunHolds(store, steps[..|steps| - 1]);
      StepKeeps(store, Run(store, steps[..|steps| - 1]), steps[|steps| - 1]);
    }
    InvIsShaped(store, Run(store, steps));
  }

  // ----- the theorems -----

  /** The queue refines sequential execution: in every run the operations that ran are accepted ones
      in acceptance order, at most one worker is alive, the store is the sequential fold over what
      ran, and every returned value or error is the sequential one. */
  lemma RefinesSequentialExecution<S(!new), R(!new)>(store: S, steps: seq<Step<S, R>>)
    ensures var s := Run(store, steps);
            && (forall k | 0 <= k < |s.log| :: s.log[k].job < |s.jobs| && s.log[k].op == s.jobs[s.log[k].job])
            && (forall i, k | 0 <= i < k < |s.log| :: s.log[i].job < s.log[k].job)
            && (forall v, w | 0 <= v < |s.workers| && 0 <= w < |s.workers| && !s.workers[v].Stopped? &&
                !s.workers[w].Stopped? :: v == w)
            && s.store == Sequential(store, s.log)
            && (forall j | 0 <= j < |s.futures| :: Explained(store, s.log, j, s.futures[j]))
  {
    RunHolds(store, steps);
    var s := Run(store, steps);
    forall v, w | 0 <= v < |s.workers| && 0 <= w < |s.workers| && !s.workers[v].Stopped? && !s.workers[w].Stopped?
      ensures v == w
    {
      assert v == |s.workers| - 1 && w == |s.workers| - 1;
    }
  }

  lemma SettledStays<S(!new), R(!new)>(s: State<S, R>, step: Step<S, R>, j: nat)
    requires Shaped(s) && j < |s.futures| && s.futures[j] != Pending
    ensures |s.futures| <= |Next(s, step).futures| && Next(s, step).futures[j] == s.futures[j]
  {
  }

  /** A future is settled at most once: what it is settled with never changes in any extension of the run. */
  lemma {:induction false} SettledOnce<S(!new), R(!new)>(store: S, steps: seq<Step<S, R>>, i: nat, j: nat)
    requires i <= |steps| && j < |Run(store, steps[..i]).futures| && Run(store, steps[..i]).futures[j] != Pending
    ensures j < |Run(store, steps).futures| && Run(store, steps).futures[j] == Run(store, steps[..i]).futures[j]
    decreases |steps|
  {
    if i == |steps| {
      assert steps[..i] == steps;
    } else {
      var before := steps[..|steps| - 1];
      assert before[..i] == steps[..i];
      SettledOnce(store, before, i, j);
      RunHolds(store, before);
      SettledStays(Run(store, before), steps[|steps| - 1], j);
    }
  }

  /** Once no worker is alive, a future is pending exactly when its job still sits in the queue, which
      happens only when the last worker task was cancelled before it entered its loop. */
  lemma PendingAfterStop<S(!new), R(!new)>(store: S, steps: seq<Step<S, R>>, j: nat)
    ensures var s := Run(store, steps);
            Current(s).Stopped? && j < |s.futures| ==>
              (s.futures[j] == Pending <==>
                && Current(s).reason == NeverEntered && s.futures[j] != Cancelled
                && exists k :: 0 <= k < |s.queue| && s.queue[k] == Job(j))
  {
    RunHolds(store, steps);
    var s := Run(store, steps);
    if Current(s).Stopped? && s.head <= j < |s.futures| {
      assert s.queue[j - s.head] == Job(j);
    }
  }
}
