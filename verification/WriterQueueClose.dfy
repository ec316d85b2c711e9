/** What a normal return of `close` means: which accepted operations have run by then. */
module WriterQueueClose {
  import opened WriterQueue

  /** Job `j` ran to its end. */
  ghost predicate HasRun<S(!new), R(!new)>(s: State<S, R>, j: int) {
    exists k :: 0 <= k < |s.log| && s.log[k].Ran? && s.log[k].job == j
  }

  ghost predicate InLog<S(!new), R(!new)>(s: State<S, R>, j: int) {
    exists k :: 0 <= k < |s.log| && s.log[k].job == j
  }

  ghost predicate InDrained<S(!new), R(!new)>(s: State<S, R>, j: int) {
    exists k :: 0 <= k < |s.drained| && s.drained[k] == j
  }

  /** Every job that left the queue is running, in the history, or was rejected unrun; never two of these. */
  ghost predicate Accounted<S(!new), R(!new)>(s: State<S, R>) {
    && (forall j | 0 <= j < s.head :: Current(s) == Executing(j) || InLog(s, j) || InDrained(s, j))
    && (forall k | 0 <= k < |s.drained| ::
          s.drained[k] < s.head && !InLog(s, s.drained[k]) && Current(s) != Executing(s.drained[k]))
  }

  /** The step stops the worker while a job is running or still queued. */
  ghost predicate Loses<S(!new), R(!new)>(s: State<S, R>, step: Step<S, R>) {
    match step
    case CancelWorker(w, _) => w < |s.workers| &&
        (s.workers[w].Executing? || (s.workers[w] == Waiting && s.head < |s.jobs|))
    case Finish(w) => w < |s.workers| && s.workers[w].Executing? && s.workers[w].job < |s.jobs| &&
                      s.jobs[s.workers[w].job](s.store).1 == Fatal && s.head < |s.jobs|
    case _ => false
  }

  ghost predicate Lossless<S(!new), R(!new)>(s: State<S, R>) {
    s.drained == [] && forall k | 0 <= k < |s.log| :: s.log[k].Ran?
  }

  lemma LossIsVisible<S(!new), R(!new)>(s: State<S, R>, step: Step<S, R>)
    requires Shaped(s) && QueueInOrder(s)
    ensures Lossless(Next(s, step)) <==> Lossless(s) && !Loses(s, step)
  {
    var t := Next(s, step);
    if Lossless(t) {
      assert forall k | 0 <= k < |s.log| :: s.log[k] == t.log[k];
    }
    if step.CancelWorker? && step.worker < |s.workers| && s.workers[step.worker].Executing? {
      assert t.log[|s.log|].Interrupted?;
    }
  }

  lemma LogKept<S(!new), R(!new)>(s: State<S, R>, t: State<S, R>, j: int)
    requires s.log <= t.log && InLog(s, j)
    ensures InLog(t, j)
  {
    var k :| 0 <= k < |s.log| && s.log[k].job == j;
    assert t.log[k].job == j;
  }

  lemma DrainAccounts<S(!new), R(!new)>(s: State<S, R>, w: nat, reason: StopReason)
    requires w == |s.workers| - 1 && s.head <= |s.jobs| == |s.futures|
    requires forall k | 0 <= k < |s.log| :: s.log[k].job < s.head
    requires forall j | 0 <= j < s.head :: InLog(s, j) || InDrained(s, j)
    requires forall k | 0 <= k < |s.drained| :: s.drained[k] < s.head && !InLog(s, s.drained[k])
    ensures Accounted(Drain(s, w, reason))
  {
    var t := Drain(s, w, reason);
    forall j | 0 <= j < t.head ensures InLog(t, j) || InDrained(t, j) {
      if j >= s.head {
        assert t.drained[|s.drained| + (j - s.head)] == j;
      } else if InDrained(s, j) {
        var k :| 0 <= k < |s.drained| && s.drained[k] == j;
        assert t.drained[k] == j;
      } else {
        LogKept(s, t, j);
      }
    }
    forall k | 0 <= k < |t.drained| ensures t.drained[k] < t.head && !InLog(t, t.drained[k]) {
    }
  }

  /** Moving the running job into the history keeps the account. */
  lemma LogAccounts<S(!new), R(!new)>(store: S, s: State<S, R>, e: Event<S, R>)
    requires Inv(store, s) && Accounted(s) && Current(s).Executing? && e.job == Current(s).job
    ensures var t := s.(log := s.log + [e]);
            && (forall j | 0 <= j < s.head :: InLog(t, j) || InDrained(t, j))
            && (forall k | 0 <= k < |t.drained| :: t.drained[k] < t.head && !InLog(t, t.drained[k]))
  {
    var t := s.(log := s.log + [e]);
    assert t.log[|s.log|].job == e.job;
    forall j | 0 <= j < s.head ensures InLog(t, j) || InDrained(t, j) {
      if InLog(s, j) {
        LogKept(s, t, j);
      } else if InDrained(s, j) {
        var k :| 0 <= k < |s.drained| && s.drained[k] == j;
      }
    }
  }

  /** The account only depends on the history and the running job. */
  lemma AccountCarries<S(!new), R(!new)>(s: State<S, R>, t: State<S, R>)
    requires t.log == s.log && t.drained == s.drained
    ensures forall j :: (InLog(t, j) <==> InLog(s, j)) && (InDrained(t, j) <==> InDrained(s, j))
  {
  }

  lemma SameAccount<S(!new), R(!new)>(s: State<S, R>, t: State<S, R>)
    requires Accounted(s) && t.log == s.log && t.drained == s.drained && t.head == s.head
    requires forall j :: Current(t) == Executing(j) <==> Current(s) == Executing(j)
    ensures Accounted(t)
  {
    AccountCarries(s, t);
  }

  lemma SubmitAccounts<S(!new), R(!new)>(store: S, s: State<S, R>, step: Step<S, R>)
    requires Inv(store, s) && Accounted(s) && !step.Take? && !step.Finish? && !step.CancelWorker?
    ensures Accounted(Next(s, step))
  {
    OtherStepsLeave(store, s, step);
    SameAccount(s, Next(s, step));
  }

  lemma OtherStepsLeave<S(!new), R(!new)>(store: S, s: State<S, R>, step: Step<S, R>)
    requires Inv(store, s) && !step.Take? && !step.Finish? && !step.CancelWorker?
    ensures var t := Next(s, step);
            && t.log == s.log && t.drained == s.drained && t.head == s.head
            && forall j :: Current(t) == Executing(j) <==> Current(s) == Executing(j)
  {
  }

  lemma SentinelAccounts<S(!new), R(!new)>(store: S, s: State<S, R>, w: nat)
    requires Inv(store, s) && Accounted(s) && w == |s.workers| - 1 && s.workers[w] == Waiting && s.queue != []
    ensures Accounted(Drain(s.(queue := s.queue[1..]), w, BySentinel))
  {
    var u := s.(queue := s.queue[1..]);
    AccountCarries(s, u);
    DrainAccounts(u, w, BySentinel);
  }

  lemma JobAccounts<S(!new), R(!new)>(store: S, s: State<S, R>, w: nat, t: State<S, R>)
    requires Inv(store, s) && Accounted(s) && w == |s.workers| - 1 && s.workers[w] == Waiting
    requires t.log == s.log && t.drained == s.drained && t.head == s.head + 1 &&
             t.workers == s.workers[w := Executing(s.head)]
    ensures Accounted(t)
  {
    AccountCarries(s, t);
  }

  lemma TakeAccounts<S(!new), R(!new)>(store: S, s: State<S, R>, w: nat)
    requires Inv(store, s) && Accounted(s)
    ensures Accounted(Next(s, Take(w)))
  {
    if w < |s.workers| && s.workers[w] == Waiting && s.queue != [] {
      assert w == |s.workers| - 1;
      if s.queue[0] == Sentinel {
        SentinelAccounts(store, s, w);
      } else if s.head < |s.jobs| {
        JobAccounts(store, s, w, Next(s, Take(w)));
      }
    }
  }

  lemma FinishAccounts<S(!new), R(!new)>(store: S, s: State<S, R>, w: nat)
    requires Inv(store, s) && Accounted(s) && w < |s.workers| && s.workers[w].Executing?
    ensures Accounted(FinishJob(s, w))
  {
    var j := s.workers[w].job;
    var e := Ran(j, s.jobs[j]);
    LogAccounts(store, s, e);
    var u := s.(log := s.log + [e]);
    var t := FinishJob(s, w);
    if s.jobs[j](s.store).1 == Fatal {
      var v := u.(store := s.jobs[j](s.store).0, futures := Settle(s.futures, j, Rejected));
      AccountCarries(u, v);
      DrainAccounts(v, w, Crashed);
    } else {
      AccountCarries(u, t);
    }
  }

  lemma CancelAccounts<S(!new), R(!new)>(store: S, s: State<S, R>, w: nat, after: S)
    requires Inv(store, s) && Accounted(s)
    ensures Accounted(Next(s, CancelWorker(w, after)))
  {
    if w < |s.workers| && s.workers[w] == Waiting {
      DrainAccounts(s, w, Crashed);
    } else if w < |s.workers| && s.workers[w].Executing? {
      var j := s.workers[w].job;
      var e := Interrupted(j, s.jobs[j], after);
      LogAccounts(store, s, e);
      var u := s.(log := s.log + [e]);
      var v := s.(store := after, log := s.log + [e], futures := Settle(s.futures, j, Rejected));
      AccountCarries(u, v);
      DrainAccounts(v, w, Crashed);
    }
  }

  lemma StepAccounts<S(!new), R(!new)>(store: S, s: State<S, R>, step: Step<S, R>)
    requires Inv(store, s) && Accounted(s)
    ensures Accounted(Next(s, step))
  {
    match step
    case Take(w) => TakeAccounts(store, s, w);
    case Finish(w) =>
      if w < |s.workers| && s.workers[w].Executing? {
        FinishAccounts(store, s, w);
      }
    case CancelWorker(w, after) => CancelAccounts(store, s, w, after);
    case _ => SubmitAccounts(store, s, step);
  }

  lemma {:induction false} RunAccounts<S(!new), R(!new)>(store: S, steps: seq<Step<S, R>>)
    ensures Accounted(Run(store, steps))
    decreases |steps|
  {
    if steps != [] {
      var before := steps[..|steps| - 1];
      RunAccounts(store, before);
      RunHolds(store, before);
      StepAccounts(store, Run(store, before), steps[|steps| - 1]);
    }
  }

  lemma RunExtends<S(!new), R(!new)>(store: S, steps: seq<Step<S, R>>, step: Step<S, R>)
    requires Shaped(Run(store, steps))
    ensures Run(store, steps + [step]) == Next(Run(store, steps), step)
  {
    assert (steps + [step])[..|steps|] == steps;
  }

  /** No step of the run stopped a worker with a job running or queued. */
  ghost predicate NoLoss<S(!new), R(!new)>(store: S, steps: seq<Step<S, R>>) {
    forall i | 0 <= i < |steps| :: !Loses(Run(store, steps[..i]), steps[i])
  }

  lemma NoLossSplits<S(!new), R(!new)>(store: S, steps: seq<Step<S, R>>, last: Step<S, R>)
    ensures NoLoss(store, steps + [last]) <==> NoLoss(store, steps) && !Loses(Run(store, steps), last)
  {
    var all := steps + [last];
    assert all[..|steps|] == steps;
    assert forall i | 0 <= i < |steps| :: all[..i] == steps[..i] && all[i] == steps[i];
    if NoLoss(store, all) {
      assert !Loses(Run(store, all[..|steps|]), all[|steps|]);
    }
  }

  lemma LossStep<S(!new), R(!new)>(store: S, steps: seq<Step<S, R>>, last: Step<S, R>)
    ensures Lossless(Run(store, steps + [last])) <==> Lossless(Run(store, steps)) && !Loses(Run(store, steps), last)
  {
    RunHolds(store, steps);
    RunExtends(store, steps, last);
    LossIsVisible(Run(store, steps), last);
  }

  lemma {:induction false} RunLosses<S(!new), R(!new)>(store: S, steps: seq<Step<S, R>>)
    ensures Lossless(Run(store, steps)) <==> NoLoss(store, steps)
    decreases |steps|
  {
    if steps != [] {
      var before, last := steps[..|steps| - 1], steps[|steps| - 1];
      assert steps == before + [last];
      RunLosses(store, before);
      LossStep(store, before, last);
      NoLossSplits(store, before, last);
    }
  }

  /** In a queue whose close has returned, every job ran exactly if nothing was lost. */
  lemma AllRunMeansLossless<S(!new), R(!new)>(s: State<S, R>)
    requires QueueInOrder(s) && OneWorker(s) && LogInOrder(s) && Accounted(s) && s.closing == Returned
    ensures (forall j | 0 <= j < |s.jobs| :: HasRun(s, j)) <==> Lossless(s)
  {
    if Lossless(s) {
      forall j | 0 <= j < |s.jobs| ensures HasRun(s, j) {
        assert InLog(s, j);
      }
    }
    if forall j | 0 <= j < |s.jobs| :: HasRun(s, j) {
      forall k | 0 <= k < |s.log| ensures s.log[k].Ran? {
        assert HasRun(s, s.log[k].job);
      }
      assert |s.drained| > 0 ==> HasRun(s, s.drained[0]) && InLog(s, s.drained[0]);
    }
  }

  /** When the call that closed the queue has returned normally, nothing is queued or running, and
      every accepted operation has run to its end exactly when no earlier step stopped a worker with
      a job running or queued. */
  lemma CloseReturned<S(!new), R(!new)>(store: S, steps: seq<Step<S, R>>)
    requires Run(store, steps).closing == Returned
    ensures var s := Run(store, steps);
            (forall j | 0 <= j < |s.jobs| :: HasRun(s, j)) <==> NoLoss(store, steps)
  {
    RunHolds(store, steps);
    RunAccounts(store, steps);
    RunLosses(store, steps);
    AllRunMeansLossless(Run(store, steps));
  }

  // ----- two runs on concrete queues -----

  type Queue = State<int, int>

  /** One job is accepted and its worker created. */
  ghost function Accepted(op: Operation<int, int>): Queue {
    State(0, [op], [Pending], [Job(0)], [NotStarted], false, NotClosing, 0, [], [])
  }

  /** The worker has taken the job and runs it. */
  ghost function FirstRunning(op: Operation<int, int>): Queue {
    State(0, [op], [Pending], [], [Executing(0)], false, NotClosing, 1, [], [])
  }

  /** The worker was cancelled inside the operation, before it changed anything. */
  ghost function Lost(op: Operation<int, int>): Queue {
    State(0, [op], [Rejected], [], [Stopped(Crashed)], false, NotClosing, 1, [Interrupted(0, op, 0)], [])
  }

  /** A second job was accepted by a new worker, which is in the state `w`. */
  ghost function Second(op: Operation<int, int>, w: Worker): Queue {
    State(0, [op, op], [Rejected, Pending], [Job(1)], [Stopped(Crashed), w], false, NotClosing, 1,
          [Interrupted(0, op, 0)], [])
  }

  ghost function Running(op: Operation<int, int>): Queue {
    State(0, [op, op], [Rejected, Pending], [], [Stopped(Crashed), Executing(1)], false, NotClosing, 2,
          [Interrupted(0, op, 0)], [])
  }

  /** The second job has run; the rest depends on how far the close has come. */
  ghost function Done(op: Operation<int, int>, queue: seq<Entry>, w: Worker, closed: bool, closing: Closing): Queue
    requires op(0).1.Value?
  {
    State(op(0).0, [op, op], [Rejected, Resolved(op(0).1.result)], queue, [Stopped(Crashed), w], closed, closing, 2,
          [Interrupted(0, op, 0), Ran(1, op)], [])
  }

  lemma FirstSubmit(op: Operation<int, int>) returns (steps: seq<Step<int, int>>)
    ensures Run(0, steps) == Accepted(op)
  {
    steps := [];
    RunExtends(0, steps, Submit(op));
    steps := steps + [Submit(op)];
  }

  lemma FirstIsTaken(op: Operation<int, int>)
    ensures var entered := Next(Accepted(op), Enter(0));
            Shaped(entered) && Next(entered, Take(0)) == FirstRunning(op)
  {
    var entered := Next(Accepted(op), Enter(0));
    assert entered == Accepted(op).(workers := [Waiting]);
    assert Next(entered, Take(0)).workers == [Executing(0)];
  }

  lemma FirstIsInterrupted(op: Operation<int, int>)
    ensures Next(FirstRunning(op), CancelWorker(0, 0)) == Lost(op)
  {
    var t := Next(FirstRunning(op), CancelWorker(0, 0));
    assert t.futures == [Rejected];
    assert t.drained == [];
    assert t.workers == [Stopped(Crashed)];
  }

  lemma SecondIsAccepted(op: Operation<int, int>)
    ensures Next(Lost(op), Submit(op)) == Second(op, NotStarted)
    ensures Next(Second(op, NotStarted), Enter(1)) == Second(op, Waiting)
  {
    assert Next(Second(op, NotStarted), Enter(1)).workers == [Stopped(Crashed), Waiting];
  }

  lemma SecondRuns(op: Operation<int, int>)
    requires op(0).1.Value?
    ensures Next(Second(op, Waiting), Take(1)) == Running(op)
    ensures Next(Running(op), Finish(1)) == Done(op, [], Waiting, false, NotClosing)
  {
    assert Next(Second(op, Waiting), Take(1)).workers == [Stopped(Crashed), Executing(1)];
    var t := Next(Running(op), Finish(1));
    assert t.workers == [Stopped(Crashed), Waiting];
    assert t.futures == [Rejected, Resolved(op(0).1.result)];
  }

  lemma SentinelEndsWorker(op: Operation<int, int>)
    requires op(0).1.Value?
    ensures Next(Done(op, [], Waiting, false, NotClosing), Close) == Done(op, [Sentinel], Waiting, true, Awaiting)
    ensures Next(Done(op, [Sentinel], Waiting, true, Awaiting), Take(1)) ==
            Done(op, [], Stopped(BySentinel), true, Awaiting)
    ensures Next(Done(op, [], Stopped(BySentinel), true, Awaiting), CloseEnds) ==
            Done(op, [], Stopped(BySentinel), true, Returned)
  {
    var s := Done(op, [Sentinel], Waiting, true, Awaiting);
    var t := Next(s, Take(1));
    assert t.workers == [Stopped(Crashed), Stopped(BySentinel)];
    assert t.futures == s.futures;
    assert t.drained == s.drained;
  }

  lemma SecondReached(op: Operation<int, int>) returns (steps: seq<Step<int, int>>)
    ensures Run(0, steps) == Second(op, Waiting)
  {
    FirstIsTaken(op);
    FirstIsInterrupted(op);
    SecondIsAccepted(op);
    steps := FirstSubmit(op);
    RunExtends(0, steps, Enter(0));
    steps := steps + [Enter(0)];
    RunExtends(0, steps, Take(0));
    steps := steps + [Take(0)];
    RunExtends(0, steps, CancelWorker(0, 0));
    steps := steps + [CancelWorker(0, 0)];
    RunExtends(0, steps, Submit(op));
    steps := steps + [Submit(op)];
    RunExtends(0, steps, Enter(1));
    steps := steps + [Enter(1)];
  }

  lemma SecondDone(op: Operation<int, int>, before: seq<Step<int, int>>) returns (steps: seq<Step<int, int>>)
    requires op(0).1.Value? && Run(0, before) == Second(op, Waiting)
    ensures Run(0, steps) == Done(op, [], Waiting, false, NotClosing)
  {
    SecondRuns(op);
    RunExtends(0, before, Take(1));
    steps := before + [Take(1)];
    RunExtends(0, steps, Finish(1));
    steps := steps + [Finish(1)];
  }

  lemma CloseReached(op: Operation<int, int>, before: seq<Step<int, int>>) returns (steps: seq<Step<int, int>>)
    requires op(0).1.Value? && Run(0, before) == Done(op, [], Waiting, false, NotClosing)
    ensures Run(0, steps) == Done(op, [], Stopped(BySentinel), true, Returned)
  {
    SentinelEndsWorker(op);
    RunExtends(0, before, Close);
    steps := before + [Close];
    RunExtends(0, steps, Take(1));
    steps := steps + [Take(1)];
    RunExtends(0, steps, CloseEnds);
    steps := steps + [CloseEnds];
  }

  /** The condition of `CloseReturned` is needed: here the close returns normally although the first
      accepted operation was cut off by the cancellation of its worker and never ran to its end. */
  lemma CloseCanMissAJob(op: Operation<int, int>)
    requires op(0).1.Value?
    ensures exists steps: seq<Step<int, int>> ::
              Run(0, steps).closing == Returned && |Run(0, steps).jobs| == 2 && !HasRun(Run(0, steps), 0)
  {
    var steps := SecondReached(op);
    steps := SecondDone(op, steps);
    steps := CloseReached(op, steps);
    assert !HasRun(Run(0, steps), 0);
  }

  /** The failing case of `PendingAfterStop` is reached: the worker task created by the first submit is
      cancelled before its first turn. */
  lemma FutureCanStayPending(op: Operation<int, int>)
    ensures exists steps: seq<Step<int, int>> ::
              Run(0, steps).futures == [Pending] && Current(Run(0, steps)) == Stopped(NeverEntered)
  {
    var steps := FirstSubmit(op);
    RunExtends(0, steps, CancelUnstarted(0));
    steps := steps + [CancelUnstarted(0)];
    assert Run(0, steps).futures == [Pending];
  }
}
