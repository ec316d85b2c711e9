/** What every caller of the writer queue is told: the outcome of its operation if that ran to its end,
    and the "worker crashed or stopped" error otherwise; and that an undisturbed worker gets there. */
module WriterQueueOutcomes {
  import opened WriterQueue
  import opened WriterQueueClose

  /** What the caller of an operation with this outcome is told. */
  ghost function Told<R(!new)>(o: Outcome<R>): Future<R> {
    match o
    case Value(r) => Resolved(r)
    case Error(m) => Failed(m)
    case Fatal => Rejected
  }

  /** The future of entry `k` of the history: cancelled by its caller, or the outcome of the operation
      run sequentially at that place, or rejected when the operation was cut off. */
  ghost predicate EntryTold<S(!new), R(!new)>(store: S, log: seq<Event<S, R>>, k: int, f: Future<R>)
    requires 0 <= k < |log|
  {
    || f == Cancelled
    || match log[k]
       case Ran(_, op) => f == Told(op(Sequential(store, log[..k])).1)
       case Interrupted(_, _, _) => f == Rejected
  }

  /** Every history entry and every drained job has the future it should have, and nothing else is rejected. */
  ghost predicate Handed<S(!new), R(!new)>(store: S, s: State<S, R>) {
    && (forall k | 0 <= k < |s.log| ::
          s.log[k].job < |s.futures| && EntryTold(store, s.log, k, s.futures[s.log[k].job]))
    && (forall k | 0 <= k < |s.drained| ::
          s.drained[k] < |s.futures| && s.futures[s.drained[k]] in {Cancelled, Rejected})
    && (forall j | 0 <= j < |s.futures| && s.futures[j] == Rejected :: InLog(s, j) || InDrained(s, j))
  }

  /** Steps that add nothing to the history and leave the settled futures alone. */
  lemma HandedCarries<S(!new), R(!new)>(store: S, s: State<S, R>, t: State<S, R>)
    requires Handed(store, s) && t.log == s.log && t.drained == s.drained && |s.futures| <= |t.futures|
    requires forall j | 0 <= j < |s.futures| && s.futures[j] != Pending :: t.futures[j] == s.futures[j]
    requires forall j | 0 <= j < |t.futures| && t.futures[j] == Rejected :: j < |s.futures| && s.futures[j] == Rejected
    requires forall k | 0 <= k < |s.log| :: s.futures[s.log[k].job] != Pending
    ensures Handed(store, t)
  {
    AccountCarries(s, t);
  }

  lemma HandedSame<S(!new), R(!new)>(store: S, s: State<S, R>, t: State<S, R>)
    requires Handed(store, s) && t.log == s.log && t.drained == s.drained && t.futures == s.futures
    ensures Handed(store, t)
  {
    AccountCarries(s, t);
  }

  lemma LoggedIsSettled<S(!new), R(!new)>(store: S, s: State<S, R>)
    requires Inv(store, s)
    ensures forall k | 0 <= k < |s.log| :: s.log[k].job < |s.futures| && s.futures[s.log[k].job] != Pending
  {
  }

  lemma QuietStepHands<S(!new), R(!new)>(store: S, s: State<S, R>, step: Step<S, R>)
    requires Shaped(s) && Inv(store, s) && Handed(store, s)
    requires step.Submit? || step.CancelCaller? || step.Enter? || step.CancelUnstarted? || step.Close? ||
             step.CloseEnds?
    ensures Handed(store, Next(s, step))
  {
    if step.Submit? {
      SubmitHands(store, s, step.op);
    } else if step.CancelCaller? {
      CallerCancelHands(store, s, step.job);
    } else {
      HandedSame(store, s, Next(s, step));
    }
  }

  lemma SubmitHands<S(!new), R(!new)>(store: S, s: State<S, R>, op: Operation<S, R>)
    requires Shaped(s) && Inv(store, s) && Handed(store, s)
    ensures Handed(store, Next(s, Submit(op)))
  {
    LoggedIsSettled(store, s);
    HandedCarries(store, s, Next(s, Submit(op)));
  }

  lemma CallerCancelHands<S(!new), R(!new)>(store: S, s: State<S, R>, j: nat)
    requires Shaped(s) && Inv(store, s) && Handed(store, s)
    ensures Handed(store, Next(s, CancelCaller(j)))
  {
    LoggedIsSettled(store, s);
    HandedCarries(store, s, Next(s, CancelCaller(j)));
  }

  /** Draining rejects exactly the jobs it drains. */
  lemma DrainHands<S(!new), R(!new)>(store: S, s: State<S, R>, w: nat, reason: StopReason)
    requires w < |s.workers| && s.head <= |s.jobs| == |s.futures| && Handed(store, s)
    requires forall k | 0 <= k < |s.log| :: s.log[k].job < s.head
    requires forall k | 0 <= k < |s.drained| :: s.drained[k] < s.head
    requires forall j | s.head <= j < |s.jobs| :: s.futures[j] in {Pending, Cancelled}
    ensures Handed(store, Drain(s, w, reason))
  {
    var t := Drain(s, w, reason);
    forall j | 0 <= j < |t.futures| && t.futures[j] == Rejected ensures InLog(t, j) || InDrained(t, j) {
      if j >= s.head {
        assert t.drained[|s.drained| + (j - s.head)] == j;
      } else if InDrained(s, j) {
        var k :| 0 <= k < |s.drained| && s.drained[k] == j;
        assert t.drained[k] == j;
      } else {
        LogKept(s, t, j);
      }
    }
  }

  /** One more history entry whose future is settled with what it should be told. */
  lemma EntryHands<S(!new), R(!new)>(store: S, s: State<S, R>, e: Event<S, R>, t: State<S, R>)
    requires Handed(store, s) && e.job < |s.futures| == |t.futures| && s.futures[e.job] in {Pending, Cancelled}
    requires forall k | 0 <= k < |s.log| :: s.log[k].job != e.job
    requires t.log == s.log + [e] && t.drained == s.drained && !InDrained(s, e.job)
    requires forall j | 0 <= j < |s.futures| && j != e.job :: t.futures[j] == s.futures[j]
    requires EntryTold(store, s.log + [e], |s.log|, t.futures[e.job])
    ensures Handed(store, t)
  {
    forall k | 0 <= k < |t.log| ensures t.log[k].job < |t.futures| &&
        EntryTold(store, t.log, k, t.futures[t.log[k].job]) {
      if k < |s.log| {
        assert t.log[..k] == s.log[..k];
      }
    }
    assert t.log[|s.log|].job == e.job;
    forall j | 0 <= j < |t.futures| && t.futures[j] == Rejected ensures InLog(t, j) || InDrained(t, j) {
      if j != e.job {
        if InDrained(s, j) {
          assert InDrained(t, j);
        } else {
          LogKept(s, t, j);
        }
      }
    }
    forall k | 0 <= k < |t.drained| ensures t.drained[k] != e.job {
      assert InDrained(s, t.drained[k]);
    }
  }

  /** The facts about the running job that a finished or interrupted operation needs. */
  lemma RunningJob<S(!new), R(!new)>(store: S, s: State<S, R>)
    requires Inv(store, s) && Accounted(s) && Current(s).Executing?
    ensures var j := Current(s).job;
            && j < |s.futures| == |s.jobs| && j == s.head - 1 && s.futures[j] in {Pending, Cancelled} &&
                !InDrained(s, j)
            && (forall k | 0 <= k < |s.log| :: s.log[k].job < j)
            && (forall k | 0 <= k < |s.drained| :: s.drained[k] < s.head)
            && (forall i | s.head <= i < |s.jobs| :: s.futures[i] in {Pending, Cancelled})
            && s.store == Sequential(store, s.log)
  {
  }

  lemma RanEntry<S(!new), R(!new)>(store: S, s: State<S, R>, j: nat)
    requires j < |s.jobs| && s.store == Sequential(store, s.log)
    ensures var log := s.log + [Ran(j, s.jobs[j])];
            forall f :: EntryTold(store, log, |s.log|, f) <==> f == Cancelled || f == Told(s.jobs[j](s.store).1)
  {
    assert (s.log + [Ran(j, s.jobs[j])])[..|s.log|] == s.log;
  }

  lemma FinishHands<S(!new), R(!new)>(store: S, s: State<S, R>, w: nat)
    requires Inv(store, s) && Accounted(s) && Handed(store, s)
    requires Shaped(s) && w < |s.workers| && s.workers[w].Executing?
    ensures Handed(store, FinishJob(s, w))
  {
    assert w == |s.workers| - 1;
    var j := s.workers[w].job;
    RunningJob(store, s);
    RanEntry(store, s, j);
    var e := Ran(j, s.jobs[j]);
    match s.jobs[j](s.store).1
    case Value(r) => EntryHands(store, s, e, FinishJob(s, w));
    case Error(m) => EntryHands(store, s, e, FinishJob(s, w));
    case Fatal => FatalHands(store, s, w);
  }

  lemma FatalHands<S(!new), R(!new)>(store: S, s: State<S, R>, w: nat)
    requires Inv(store, s) && Accounted(s) && Handed(store, s) && Shaped(s)
    requires w == |s.workers| - 1 && s.workers[w].Executing?
    requires s.workers[w].job < |s.jobs| && s.jobs[s.workers[w].job](s.store).1 == Fatal
    ensures Handed(store, FinishJob(s, w))
  {
    var j := s.workers[w].job;
    RunningJob(store, s);
    RanEntry(store, s, j);
    var e := Ran(j, s.jobs[j]);
    var t := s.(store := s.jobs[j](s.store).0, log := s.log + [e], futures := Settle(s.futures, j, Rejected));
    EntryHands(store, s, e, t);
    DrainHands(store, t, w, Crashed);
  }

  lemma InterruptHands<S(!new), R(!new)>(store: S, s: State<S, R>, w: nat, after: S)
    requires Inv(store, s) && Accounted(s) && Handed(store, s)
    requires Shaped(s) && w < |s.workers| && s.workers[w].Executing?
    ensures Handed(store, InterruptJob(s, w, after))
  {
    assert w == |s.workers| - 1;
    var j := s.workers[w].job;
    RunningJob(store, s);
    var e := Interrupted(j, s.jobs[j], after);
    var t := s.(store := after, log := s.log + [e], futures := Settle(s.futures, j, Rejected));
    EntryHands(store, s, e, t);
    DrainHands(store, t, w, Crashed);
  }

  lemma WaitingHands<S(!new), R(!new)>(store: S, s: State<S, R>, w: nat, queue: seq<Entry>, reason: StopReason)
    requires Drainable(s) && Handed(store, s) && w == |s.workers| - 1
    requires forall k | 0 <= k < |s.drained| :: s.drained[k] < s.head
    ensures Handed(store, Drain(s.(queue := queue), w, reason))
  {
    HandedSame(store, s, s.(queue := queue));
    DrainHands(store, s.(queue := queue), w, reason);
  }

  lemma TakeHands<S(!new), R(!new)>(store: S, s: State<S, R>, w: nat)
    requires Shaped(s) && Inv(store, s) && Accounted(s) && Handed(store, s)
    ensures Handed(store, Next(s, Take(w)))
  {
    if w < |s.workers| && s.workers[w] == Waiting && s.queue != [] {
      if s.queue[0] == Sentinel {
        WaitingIsDrainable(s, s);
        WaitingHands(store, s, w, s.queue[1..], BySentinel);
      } else {
        HandedSame(store, s, Next(s, Take(w)));
      }
    }
  }

  lemma StepHands<S(!new), R(!new)>(store: S, s: State<S, R>, step: Step<S, R>)
    requires Shaped(s) && Inv(store, s) && Accounted(s) && Handed(store, s)
    ensures Handed(store, Next(s, step))
  {
    match step
    case Take(w) => TakeHands(store, s, w);
    case Finish(w) =>
      if w < |s.workers| && s.workers[w].Executing? {
        FinishHands(store, s, w);
      }
    case CancelWorker(w, after) =>
      if w < |s.workers| && s.workers[w] == Waiting {
        WaitingIsDrainable(s, s);
        WaitingHands(store, s, w, s.queue, Crashed);
      } else if w < |s.workers| && s.workers[w].Executing? {
        InterruptHands(store, s, w, after);
      }
    case _ => QuietStepHands(store, s, step);
  }

  lemma {:induction false} RunHands<S(!new), R(!new)>(store: S, steps: seq<Step<S, R>>)
    ensures Handed(store, Run(store, steps))
    decreases |steps|
  {
    if steps != [] {
      var before := steps[..|steps| - 1];
      RunHands(store, before);
      RunHolds(store, before);
      RunAccounts(store, before);
      StepHands(store, Run(store, before), steps[|steps| - 1]);
    }
  }

  /** The outcome of every operation reaches its caller. In every run, for every caller that did not
      cancel: an operation that ran to its end gives its own value, its own exception, or for a fatal one
      the crash error; an interrupted or drained one gives the crash error; and nobody else gets that. */
  lemma OutcomeReachesCaller<S(!new), R(!new)>(store: S, steps: seq<Step<S, R>>)
    ensures var s := Run(store, steps);
            && (forall k | 0 <= k < |s.log| && s.log[k].Ran? ::
                  && s.log[k].job < |s.futures|
                  && var f := s.futures[s.log[k].job];
                     f != Cancelled ==>
                       match s.log[k].op(Sequential(store, s.log[..k])).1
                       case Value(r) => f == Resolved(r)
                       case Error(m) => f == Failed(m)
                       case Fatal => f == Rejected)
            && (forall k | 0 <= k < |s.log| && s.log[k].Interrupted? ::
                  s.log[k].job < |s.futures| && s.futures[s.log[k].job] in {Cancelled, Rejected})
            && (forall k | 0 <= k < |s.drained| ::
                  s.drained[k] < |s.futures| && s.futures[s.drained[k]] in {Cancelled, Rejected})
            && (forall j | 0 <= j < |s.futures| && s.futures[j] == Rejected ::
                  InDrained(s, j) || exists k :: 0 <= k < |s.log| && s.log[k].job == j && EndedBadly(store, s.log, k))
  {
    RunHands(store, steps);
    var s := Run(store, steps);
    forall j | 0 <= j < |s.futures| && s.futures[j] == Rejected && !InDrained(s, j)
      ensures exists k :: 0 <= k < |s.log| && s.log[k].job == j && EndedBadly(store, s.log, k)
    {
      var k :| 0 <= k < |s.log| && s.log[k].job == j;
      assert EntryTold(store, s.log, k, s.futures[j]);
    }
  }

  lemma StepCancels<S(!new), R(!new)>(s: State<S, R>, step: Step<S, R>, j: nat)
    requires Shaped(s) && j < |Next(s, step).futures| && Next(s, step).futures[j] == Cancelled
    ensures step == CancelCaller(j) || (j < |s.futures| && s.futures[j] == Cancelled)
  {
  }

  /** A future is cancelled exactly by a step of its caller that finds it pending: only a caller that
      cancelled is told so, and one that cancels in time is. */
  lemma {:induction false} CancelledByCaller<S(!new), R(!new)>(store: S, steps: seq<Step<S, R>>, j: nat)
    requires j < |Run(store, steps).futures|
    ensures Run(store, steps).futures[j] == Cancelled ==> exists i :: 0 <= i < |steps| && steps[i] == CancelCaller(j)
    ensures Run(store, steps).futures[j] == Pending ==>
              j < |Run(store, steps + [CancelCaller(j)]).futures| &&
              Run(store, steps + [CancelCaller(j)]).futures[j] == Cancelled
    decreases |steps|
  {
    RunHolds(store, steps);
    RunExtends(store, steps, CancelCaller(j));
    if steps != [] && Run(store, steps).futures[j] == Cancelled {
      var before, last := steps[..|steps| - 1], steps[|steps| - 1];
      RunHolds(store, before);
      StepCancels(Run(store, before), last, j);
      if last != CancelCaller(j) {
        CancelledByCaller(store, before, j);
      }
    }
  }

  /** The operation was cut off, or ended with KeyboardInterrupt or SystemExit. */
  ghost predicate EndedBadly<S(!new), R(!new)>(store: S, log: seq<Event<S, R>>, k: int)
    requires 0 <= k < |log|
  {
    log[k].Interrupted? || log[k].op(Sequential(store, log[..k])).1 == Fatal
  }

  // ----- an undisturbed worker -----

  /** A submit to an open queue is accepted as the next job, with a pending future; to a closed queue it is
      refused and changes nothing. Once closed, a queue stays closed. */
  lemma SubmitIsAccepted<S(!new), R(!new)>(store: S, steps: seq<Step<S, R>>, op: Operation<S, R>)
    ensures var s, t := Run(store, steps), Run(store, steps + [Submit(op)]);
            && (!s.closed ==>
                  t.jobs == s.jobs + [op] && t.futures == s.futures + [Pending] && |t.queue| == |s.queue| + 1)
            && (s.closed ==> t == s)
            && (Run(store, steps + [Close]).closed && t.closed == s.closed)
  {
    RunHolds(store, steps);
    RunExtends(store, steps, Submit(op));
    RunExtends(store, steps, Close);
  }

  /** No accepted operation is fatal, wherever it runs. */
  ghost predicate Tame<S(!new), R(!new)>(s: State<S, R>) {
    forall j, x | 0 <= j < |s.jobs| :: s.jobs[j](x).1 != Fatal
  }

  /** What no turn of the worker changes. */
  ghost predicate SameQueue<S(!new), R(!new)>(s: State<S, R>, t: State<S, R>) {
    && t.jobs == s.jobs && t.closed == s.closed && t.closing == s.closing && |t.workers| == |s.workers|
    && |t.queue| + t.head == |s.queue| + s.head
  }

  /** Taking a job and finishing it runs exactly the next accepted operation. */
  lemma TurnRuns<S(!new), R(!new)>(store: S, s: State<S, R>)
    requires Inv(store, s) && Shaped(s) && Current(s) == Waiting && s.head < |s.jobs| && Tame(s)
    ensures var w := |s.workers| - 1;
            && Shaped(Next(s, Take(w)))
            && var t := Next(Next(s, Take(w)), Finish(w));
               && SameQueue(s, t) && t.head == s.head + 1 && Current(t) == Waiting
               && t.log == s.log + [Ran(s.head, s.jobs[s.head])]
  {
    assert s.queue[0] == Job(s.head);
    var w := |s.workers| - 1;
    var u := Next(s, Take(w));
    assert u.workers[w] == Executing(s.head) && u.jobs == s.jobs && u.log == s.log;
  }

  /** From `s` the worker has run all jobs up to the head of `t`, and waits again. */
  ghost predicate Caught<S(!new), R(!new)>(s: State<S, R>, t: State<S, R>) {
    && SameQueue(s, t) && Current(t) == Waiting && s.head <= t.head && s.log <= t.log
    && forall j | s.head <= j < t.head :: HasRun(t, j)
  }

  lemma RunKept<S(!new), R(!new)>(t: State<S, R>, u: State<S, R>, j: int)
    requires t.log <= u.log && HasRun(t, j)
    ensures HasRun(u, j)
  {
    var k :| 0 <= k < |t.log| && t.log[k].Ran? && t.log[k].job == j;
    assert u.log[k] == t.log[k];
  }

  lemma CaughtComposes<S(!new), R(!new)>(s: State<S, R>, t: State<S, R>, u: State<S, R>)
    requires Caught(s, t) && Caught(t, u)
    ensures Caught(s, u)
  {
    forall j | s.head <= j < u.head ensures HasRun(u, j) {
      if j < t.head {
        RunKept(t, u, j);
      }
    }
  }

  lemma RunTurn<S(!new), R(!new)>(store: S, steps: seq<Step<S, R>>) returns (turn: seq<Step<S, R>>)
    requires var s := Run(store, steps); Current(s) == Waiting && s.head < |s.jobs| && Tame(s)
    ensures steps <= turn && Caught(Run(store, steps), Run(store, turn))
    ensures Run(store, turn).head == Run(store, steps).head + 1
  {
    var s := Run(store, steps);
    var w := |s.workers| - 1;
    RunHolds(store, steps);
    TurnRuns(store, s);
    RunExtends(store, steps, Take(w));
    RunExtends(store, steps + [Take(w)], Finish(w));
    turn := steps + [Take(w)] + [Finish(w)];
    LastHasRun(Run(store, turn), s.log, s.head, s.jobs[s.head]);
  }

  lemma LastHasRun<S(!new), R(!new)>(t: State<S, R>, log: seq<Event<S, R>>, j: nat, op: Operation<S, R>)
    requires t.log == log + [Ran(j, op)]
    ensures HasRun(t, j) && log <= t.log
  {
    assert t.log[|log|] == Ran(j, op);
  }

  /** Left alone, a waiting worker runs all accepted operations in order. */
  lemma {:induction false} WorkerCatchesUp<S(!new), R(!new)>(store: S, steps: seq<Step<S, R>>)
    returns (all: seq<Step<S, R>>)
    requires Current(Run(store, steps)) == Waiting && Tame(Run(store, steps))
    ensures steps <= all && Caught(Run(store, steps), Run(store, all))
    ensures Run(store, all).head == |Run(store, all).jobs|
    decreases |Run(store, steps).jobs| - Run(store, steps).head
  {
    var s := Run(store, steps);
    HeadInRange(store, steps);
    if s.head == |s.jobs| {
      all := steps;
    } else {
      var turn := RunTurn(store, steps);
      TameStays(s, Run(store, turn));
      all := WorkerCatchesUp(store, turn);
      CaughtComposes(s, Run(store, turn), Run(store, all));
    }
  }

  lemma HeadInRange<S(!new), R(!new)>(store: S, steps: seq<Step<S, R>>)
    ensures Run(store, steps).head <= |Run(store, steps).jobs|
  {
    RunHolds(store, steps);
  }

  lemma TameStays<S(!new), R(!new)>(s: State<S, R>, t: State<S, R>)
    requires Tame(s) && t.jobs == s.jobs
    ensures Tame(t)
  {
  }

  lemma SentinelReturns<S(!new), R(!new)>(store: S, s: State<S, R>)
    requires Inv(store, s) && Shaped(s) && Current(s) == Waiting && s.head == |s.jobs| && |s.queue| == 1 &&
             s.closing == Awaiting
    ensures var w := |s.workers| - 1;
            && Shaped(Next(s, Take(w)))
            && var t := Next(Next(s, Take(w)), CloseEnds);
               t.closing == Returned && t.jobs == s.jobs && t.log == s.log
  {
    var w := |s.workers| - 1;
    assert s.queue[0] == Sentinel;
    var t := Next(s, Take(w));
    assert t.workers[w] == Stopped(BySentinel) && |t.workers| == |s.workers|;
  }

  /** Closing an open queue puts the sentinel behind its jobs. */
  lemma ClosePutsSentinel<S(!new), R(!new)>(store: S, steps: seq<Step<S, R>>)
    requires var s := Run(store, steps); Current(s) == Waiting && !s.closed
    ensures var s, t := Run(store, steps), Run(store, steps + [Close]);
            && t.jobs == s.jobs && t.head == s.head && t.log == s.log && Current(t) == Waiting && t.closing == Awaiting
            && |t.queue| + t.head == |t.jobs| + 1
  {
    RunHolds(store, steps);
    CloseAppends(Run(store, steps));
    RunExtends(store, steps, Close);
  }

  lemma CloseAppends<S(!new), R(!new)>(s: State<S, R>)
    requires Shaped(s) && QueueInOrder(s) && Current(s) == Waiting && !s.closed
    ensures var t := Next(s, Close);
            && t.jobs == s.jobs && t.head == s.head && t.log == s.log && Current(t) == Waiting && t.closing == Awaiting
            && |t.queue| + t.head == |t.jobs| + 1
  {
  }

  lemma SentinelEnds<S(!new), R(!new)>(store: S, steps: seq<Step<S, R>>) returns (all: seq<Step<S, R>>)
    requires var s := Run(store, steps);
             Current(s) == Waiting && s.head == |s.jobs| && |s.queue| == 1 && s.closing == Awaiting
    ensures steps <= all && Run(store, all).closing == Returned
    ensures Run(store, all).jobs == Run(store, steps).jobs && Run(store, all).log == Run(store, steps).log
  {
    var w := |Run(store, steps).workers| - 1;
    RunHolds(store, steps);
    SentinelReturns(store, Run(store, steps));
    RunExtends(store, steps, Take(w));
    RunExtends(store, steps + [Take(w)], CloseEnds);
    all := steps + [Take(w)] + [CloseEnds];
  }

  /** Left alone, a waiting worker takes the sentinel after the last job, and the close returns normally
      with every queued operation run. */
  lemma CloseDrains<S(!new), R(!new)>(store: S, steps: seq<Step<S, R>>) returns (all: seq<Step<S, R>>)
    requires var s := Run(store, steps); Current(s) == Waiting && Tame(s) && !s.closed
    ensures var s, t := Run(store, steps), Run(store, all);
            && steps + [Close] <= all && t.closing == Returned && t.jobs == s.jobs
            && forall j | s.head <= j < |s.jobs| :: HasRun(t, j)
  {
    var s := Run(store, steps);
    ClosePutsSentinel(store, steps);
    TameStays(s, Run(store, steps + [Close]));
    var done := WorkerCatchesUp(store, steps + [Close]);
    all := SentinelEnds(store, done);
    forall j | s.head <= j < |s.jobs| ensures HasRun(Run(store, all), j) {
      RunKept(Run(store, done), Run(store, all), j);
    }
  }
}
