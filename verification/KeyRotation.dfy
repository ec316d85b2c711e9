/** Crash-safe key rotation: the persisted progress row, the account key versions, and one driver
    that may crash between any two calls. */
module KeyRotation {
  import opened Basics

  /** The `auth_key_rotation` row. */
  datatype Progress = Progress(target: int, last: int, completed: bool)

  /** `accounts` maps an account id to its key version. */
  datatype Tables = Tables(accounts: map<Id, int>, progress: Option<Progress>)

  datatype BeginResult = Begun(progress: Progress) | TargetTooSmall | OtherTargetInProgress | TargetNotGreater

  datatype MarkResult = Marked | NoRotation | AccountMissing

  // ----- specification -----

  /** The accounts still below the target version. */
  function Lagging(t: Tables): set<Id> {
    if t.progress.None? then {} else set a | a in t.accounts && t.accounts[a] < t.progress.value.target
  }

  /** The lagging accounts past the progress mark. */
  function PendingIds(t: Tables): set<Id> {
    if t.progress.None? then {} else set a | a in Lagging(t) && a.n > t.progress.value.last
  }

  /** No account lags exactly if all have reached the target. */
  lemma NoLaggards(t: Tables)
    requires t.progress.Some?
    ensures Lagging(t) == {} <==> forall a | a in t.accounts :: t.accounts[a] >= t.progress.value.target
  {
    forall a | a in t.accounts ensures a in Lagging(t) <==> t.accounts[a] < t.progress.value.target {}
  }

  lemma PendingMeans(t: Tables)
    requires t.progress.Some?
    ensures forall a :: a in PendingIds(t) <==>
                        a in t.accounts && t.accounts[a] < t.progress.value.target && a.n > t.progress.value.last
  {
  }

  function NextPending(t: Tables): (r: Option<Id>)
    ensures r.None? <==> PendingIds(t) == {}
    ensures r.Some? ==> r.value in PendingIds(t) && forall a | a in PendingIds(t) :: r.value.n <= a.n
  {
    if PendingIds(t) == {} then None else Some(Smallest(PendingIds(t)))
  }

  function BeginOutcome(t: Tables, target: int): BeginResult {
    if target < 1 then TargetTooSmall
    else match t.progress
      case None => Begun(Progress(target, 0, false))
      case Some(p) =>
        if p.target == target then Begun(p)
        else if !p.completed then OtherTargetInProgress
        else if target <= p.target then TargetNotGreater
        else Begun(Progress(target, 0, false))
  }

  function AfterBegin(t: Tables, target: int): Tables {
    var r := BeginOutcome(t, target);
    if r.Begun? then t.(progress := Some(r.progress)) else t
  }

  function AfterMark(t: Tables, id: Id): Tables {
    if t.progress.None? || id !in t.accounts then t
    else
      var p := t.progress.value;
      t.(accounts := if t.accounts[id] < p.target then t.accounts[id := p.target] else t.accounts,
         progress := Some(p.(last := if id.n > p.last then id.n else p.last)))
  }

  function AfterComplete(t: Tables): Tables {
    if t.progress.None? || t.progress.value.completed || Lagging(t) != {} then t
    else t.(progress := Some(t.progress.value.(completed := true)))
  }

  /** Every account at or below the progress mark is at the target version. */
  ghost predicate InOrder(t: Tables) {
    && (forall a | a in t.accounts :: a.n > 0)
    && (t.progress.Some? ==>
          && t.progress.value.last >= 0 && (t.progress.value.last > 0 ==> Id(t.progress.value.last) in t.accounts)
          && forall a | a in t.accounts && a.n <= t.progress.value.last :: t.accounts[a] >= t.progress.value.target)
  }

  // ----- the repository -----

  class Repository {
    var accounts: map<Id, int>
    var progress: Option<Progress>

    function Snapshot(): Tables
      reads this
    {
      Tables(accounts, progress)
    }

    constructor (accounts: map<Id, int>)
      ensures Snapshot() == Tables(accounts, None)
    {
      this.accounts, progress := accounts, None;
    }

    /** Create the rotation row, return it, or restart it for a greater target after completion. */
    method BeginRotation(target: int) returns (r: BeginResult)
      modifies this`progress
      ensures r == BeginOutcome(old(Snapshot()), target) && Snapshot() == AfterBegin(old(Snapshot()), target)
      ensures r.Begun? <==>
                && target >= 1
                && (old(progress).Some? && old(progress).value.target != target ==>
                      old(progress).value.completed && target > old(progress).value.target)
      ensures r.Begun? ==> progress == Some(r.progress) && r.progress.target == target
      ensures r.Begun? && !(old(progress).Some? && old(progress).value.target == target) ==>
                r.progress.last == 0 && !r.progress.completed
      ensures r.Begun? && old(progress).Some? && old(progress).value.target == target ==> progress == old(progress)
      ensures !r.Begun? ==> progress == old(progress)
      ensures r.OtherTargetInProgress? ==> old(progress).Some? && !old(progress).value.completed
      ensures r.TargetNotGreater? ==> old(progress).Some? && target < old(progress).value.target
    {
      if target < 1 {
        return TargetTooSmall;
      }
      if progress.Some? {
        if progress.value.target == target {
          return Begun(progress.value);
        }
        if !progress.value.completed {
          return OtherTargetInProgress;
        }
        if target <= progress.value.target {
          return TargetNotGreater;
        }
      }
      progress := Some(Progress(target, 0, false));
      r := Begun(progress.value);
    }

    /** SELECT id ... WHERE key_version < target AND id > last ORDER BY id LIMIT 1. */
    method NextPendingAccountId() returns (r: Option<Id>)
      ensures r.Some? ==>
                && progress.Some? && r.value in accounts
                && accounts[r.value] < progress.value.target && r.value.n > progress.value.last
      ensures progress.Some? ==>
                forall a | a in accounts && accounts[a] < progress.value.target && a.n > progress.value.last ::
                  r.Some? && r.value.n <= a.n
    {
      r := NextPending(Snapshot());
      if progress.Some? {
        PendingMeans(Snapshot());
      }
    }

    method MarkAccountRotated(id: Id) returns (r: MarkResult)
      modifies this
      ensures Snapshot() == AfterMark(old(Snapshot()), id)
      ensures r == if old(progress).None? then NoRotation else if id !in old(accounts) then AccountMissing else Marked
      ensures !r.Marked? ==> accounts == old(accounts) && progress == old(progress)
      ensures r.Marked? ==>
                && accounts.Keys == old(accounts).Keys && progress.Some?
                && accounts[id] == (if old(accounts)[id] < old(progress).value.target then old(progress).value.target
                                    else old(accounts)[id])
                && (forall a | a in accounts && a != id :: accounts[a] == old(accounts)[a])
                && progress.value == old(progress).value.(last :=
                     if id.n > old(progress).value.last then id.n else old(progress).value.last)
    {
      if progress.None? {
        return NoRotation;
      }
      if id !in accounts {
        return AccountMissing;
      }
      var p := progress.value;
      if accounts[id] < p.target {
        accounts := accounts[id := p.target];
      }
      var newLast := if p.last > id.n then p.last else id.n;
      if newLast != p.last {
        progress := Some(p.(last := newLast));
      }
      r := Marked;
    }

    /** None when there is no rotation; otherwise whether it is complete now. */
    method CompleteIfFinished() returns (r: Option<bool>)
      modifies this`progress
      ensures Snapshot() == AfterComplete(old(Snapshot()))
      ensures r == Some(true) <==>
                && old(progress).Some?
                && (old(progress).value.completed || forall a | a in accounts ::
                    accounts[a] >= old(progress).value.target)
      ensures progress == if r == Some(true) then Some(old(progress).value.(completed := true)) else old(progress)
      ensures r == if old(progress).None? then None
              else Some(old(progress).value.completed || Lagging(old(Snapshot())) == {})
    {
      if progress.None? {
        return None;
      }
      NoLaggards(Snapshot());
      if progress.value.completed {
        return Some(true);
      }
      if Lagging(Snapshot()) != {} {
        return Some(false);
      }
      progress := Some(progress.value.(completed := true));
      r := Some(true);
    }
  }

  // ----- one driver, crashing anywhere -----

  /** The driver remembers the id it was handed until it marks it, begins again or crashes. */
  datatype System = System(tables: Tables, handed: Option<Id>)

  datatype Step = Begin(target: int) | Ask | Mark | Complete | AddAccount(version: int) | Crash

  ghost function Next(s: System, step: Step): System {
    match step
    case Begin(target) => System(AfterBegin(s.tables, target), None)
    case Ask => s.(handed := NextPending(s.tables))
    case Mark => if s.handed.Some? then System(AfterMark(s.tables, s.handed.value), None) else s
    case Complete => s.(tables := AfterComplete(s.tables))
    case AddAccount(v) => s.(tables := s.tables.(accounts := s.tables.accounts[NextId(s.tables.accounts.Keys) := v]))
    case Crash => s.(handed := None)
  }

  /** The progress mark is in order, and an id in hand is still the next pending one. */
  ghost predicate Inv(s: System) {
    InOrder(s.tables) && (s.handed.Some? ==> NextPending(s.tables) == s.handed)
  }

  lemma NewAccountIsLast(t: Tables)
    requires InOrder(t)
    ensures var id := NextId(t.accounts.Keys);
            && id.n > 0 && (forall a | a in t.accounts :: a.n < id.n)
            && (t.progress.Some? ==> id.n > t.progress.value.last)
  {
  }

  /** Adding an account past all others does not change which id is next. */
  lemma NextStaysNext(t: Tables, version: int)
    requires InOrder(t) && NextPending(t).Some?
    ensures NextPending(t.(accounts := t.accounts[NextId(t.accounts.Keys) := version])) == NextPending(t)
  {
    var id := NextId(t.accounts.Keys);
    var u := t.(accounts := t.accounts[id := version]);
    NewAccountIsLast(t);
    var next := NextPending(t).value;
    assert next in PendingIds(u);
    forall a | a in PendingIds(u) ensures next.n <= a.n {
      assert a == id || a in PendingIds(t);
    }
  }

  /** Marking the next pending id keeps the mark in order and removes exactly that account from the laggards. */
  lemma MarkNext(t: Tables)
    requires InOrder(t) && NextPending(t).Some?
    ensures var id := NextPending(t).value;
            && InOrder(AfterMark(t, id))
            && id in Lagging(t) && Lagging(AfterMark(t, id)) == Lagging(t) - {id}
            && |Lagging(AfterMark(t, id))| == |Lagging(t)| - 1
  {
    var id := NextPending(t).value;
    var u := AfterMark(t, id);
    forall a | a in u.accounts && a.n <= u.progress.value.last ensures u.accounts[a] >= u.progress.value.target {
      if a.n > t.progress.value.last && a != id {
        assert a !in PendingIds(t);
      }
    }
  }

  lemma StepKeeps(s: System, step: Step)
    requires Inv(s)
    ensures Inv(Next(s, step))
  {
    match step
    case Mark =>
      if s.handed.Some? {
        MarkNext(s.tables);
      }
    case AddAccount(v) =>
      NewAccountIsLast(s.tables);
      if s.handed.Some? {
        NextStaysNext(s.tables, v);
      }
    case Complete => assert PendingIds(AfterComplete(s.tables)) == PendingIds(s.tables);
    case _ =>
  }

  ghost function Run(s: System, steps: seq<Step>): System {
    if steps == [] then s else Next(Run(s, steps[..|steps| - 1]), steps[|steps| - 1])
  }

  /** In every run, with crashes anywhere and accounts added at any time, all accounts up to the
      progress mark are at the target version. */
  lemma {:induction false} EveryRunIsInOrder(s: System, steps: seq<Step>)
    requires Inv(s)
    ensures Inv(Run(s, steps))
    ensures var t := Run(s, steps).tables;
            t.progress.Some? ==>
              forall a | a in t.accounts && a.n <= t.progress.value.last :: t.accounts[a] >= t.progress.value.target
  {
    if steps != [] {
      EveryRunIsInOrder(s, steps[..|steps| - 1]);
      StepKeeps(Run(s, steps[..|steps| - 1]), steps[|steps| - 1]);
    }
  }

  lemma VersionsGrowInStep(s: System, step: Step, a: Id)
    requires Inv(s) && a in s.tables.accounts
    ensures a in Next(s, step).tables.accounts && Next(s, step).tables.accounts[a] >= s.tables.accounts[a]
  {
  }

  /** No account is lost and no key version ever decreases. */
  lemma {:induction false} VersionsNeverDecrease(s: System, steps: seq<Step>, a: Id)
    requires Inv(s) && a in s.tables.accounts
    ensures a in Run(s, steps).tables.accounts && Run(s, steps).tables.accounts[a] >= s.tables.accounts[a]
  {
    if steps != [] {
      VersionsNeverDecrease(s, steps[..|steps| - 1], a);
      EveryRunIsInOrder(s, steps[..|steps| - 1]);
      VersionsGrowInStep(Run(s, steps[..|steps| - 1]), steps[|steps| - 1], a);
    }
  }

  /** When the driver is handed nothing, completion succeeds and every account is at the target. */
  lemma NothingPendingMeansDone(s: System, steps: seq<Step>)
    requires Inv(s) && Run(s, steps).tables.progress.Some? && NextPending(Run(s, steps).tables).None?
    ensures var t := Run(s, steps).tables;
            && (forall a | a in t.accounts :: t.accounts[a] >= t.progress.value.target)
            && AfterComplete(t).progress.value.completed
  {
    EveryRunIsInOrder(s, steps);
    var t := Run(s, steps).tables;
    forall a | a in t.accounts ensures t.accounts[a] >= t.progress.value.target {
      assert a !in PendingIds(t);
    }
    assert Lagging(t) == {};
  }

  /** Driving without interruption: as many ask-and-mark rounds as there are laggards empty them all,
      and one more call completes. */
  lemma {:induction false} RoundsFinish(t: Tables, n: nat)
    requires InOrder(t) && t.progress.Some? && n == |Lagging(t)|
    ensures var u := Rounds(t, n);
            && InOrder(u) && Lagging(u) == {} && u.progress.Some? && AfterComplete(u).progress.value.completed
            && u.progress.value.target == t.progress.value.target && u.accounts.Keys == t.accounts.Keys
            && forall a | a in u.accounts :: u.accounts[a] >= t.progress.value.target
    decreases n
  {
    if n > 0 {
      LaggardsArePending(t);
      MarkNext(t);
      RoundsFinish(AfterMark(t, NextPending(t).value), n - 1);
    } else {
      NoLaggards(t);
    }
  }

  /** `n` rounds of asking for the next id and marking it. */
  ghost function Rounds(t: Tables, n: nat): Tables
    decreases n
  {
    if n == 0 then t
    else if NextPending(t).None? then t
    else Rounds(AfterMark(t, NextPending(t).value), n - 1)
  }

  lemma LaggardsArePending(t: Tables)
    requires InOrder(t) && |Lagging(t)| > 0
    ensures NextPending(t).Some?
  {
    var a :| a in Lagging(t);
    assert a in PendingIds(t);
  }

  /** Marking an arbitrary account keeps the mark in order exactly when every smaller account has
      already reached the target. */
  lemma MarkAnyAccount(t: Tables, id: Id)
    requires InOrder(t) && t.progress.Some? && id in t.accounts
    ensures InOrder(AfterMark(t, id)) <==> forall a | a in t.accounts && a.n < id.n ::
            t.accounts[a] >= t.progress.value.target
  {
    var u := AfterMark(t, id);
    if InOrder(u) {
      forall a | a in t.accounts && a.n < id.n ensures t.accounts[a] >= t.progress.value.target {
        assert a in u.accounts && a.n <= u.progress.value.last;
      }
    }
  }

  /** The unfinished rotation has passed the account `a` by, which still lags. */
  ghost predicate Skipped(s: System, a: Id) {
    && s.tables.progress.Some? && !s.tables.progress.value.completed && s.handed != Some(a)
    && a in s.tables.accounts && s.tables.accounts[a] < s.tables.progress.value.target &&
        a.n <= s.tables.progress.value.last
  }

  lemma SkippedStays(s: System, step: Step, a: Id)
    requires Skipped(s, a)
    ensures Skipped(Next(s, step), a)
    ensures Next(s, step).tables.progress.value.target == s.tables.progress.value.target
  {
    assert a in Lagging(s.tables) && a !in PendingIds(s.tables);
  }

  /** Marking an account while a smaller one lags skips that one for good: in every run of the driver
      it is never handed out, its version never changes, and the rotation never completes, so that no
      other rotation can begin either. */
  lemma {:induction false} SkippedForever(t: Tables, id: Id, a: Id, steps: seq<Step>)
    requires t.progress.Some? && !t.progress.value.completed && id in t.accounts && a in t.accounts
    requires a.n < id.n && t.accounts[a] < t.progress.value.target
    ensures var s := Run(System(AfterMark(t, id), None), steps);
            && Skipped(s, a) && NextPending(s.tables) != Some(a)
            && s.tables.progress.value.target == t.progress.value.target
  {
    if steps != [] {
      SkippedForever(t, id, a, steps[..|steps| - 1]);
      SkippedStays(Run(System(AfterMark(t, id), None), steps[..|steps| - 1]), steps[|steps| - 1], a);
    }
    assert a !in PendingIds(Run(System(AfterMark(t, id), None), steps).tables);
  }

  /** A rotation marked complete has no laggards. */
  ghost predicate CompletedFits(t: Tables) {
    t.progress.Some? && t.progress.value.completed ==> Lagging(t) == {}
  }

  /** The step adds a lagging account after completion; the one way in which the mark becomes stale. */
  ghost predicate Outdates(s: System, step: Step) {
    && step.AddAccount? && s.tables.progress.Some? && s.tables.progress.value.completed
    && step.version < s.tables.progress.value.target
  }

  lemma AddedAccountLags(t: Tables, version: int)
    requires t.progress.Some?
    ensures var id := NextId(t.accounts.Keys);
            Lagging(t.(accounts := t.accounts[id := version])) ==
            Lagging(t) + if version < t.progress.value.target then {id} else {}
  {
  }

  lemma MarkOnlyCatchesUp(t: Tables, id: Id)
    ensures Lagging(AfterMark(t, id)) <= Lagging(t)
  {
  }

  /** Every step of the driver keeps a complete rotation free of laggards, except exactly the addition
      of a lagging account after completion. */
  lemma CompletionKeptExactly(s: System, step: Step)
    requires CompletedFits(s.tables)
    ensures CompletedFits(Next(s, step).tables) <==> !Outdates(s, step)
  {
    match step
    case AddAccount(version) =>
      if s.tables.progress.Some? {
        AddedAccountLags(s.tables, version);
      }
    case Mark =>
      if s.handed.Some? {
        MarkOnlyCatchesUp(s.tables, s.handed.value);
      }
    case _ =>
  }

  /** When a reported completion can be trusted: after every run in which no lagging account was added
      to a completed rotation, `complete_if_finished` answers true exactly if no account lags. */
  lemma {:induction false} CompletionCanBeTrusted(s: System, steps: seq<Step>)
    requires CompletedFits(s.tables)
    requires forall k | 0 <= k < |steps| :: !Outdates(Run(s, steps[..k]), steps[k])
    ensures var t := Run(s, steps).tables;
            && CompletedFits(t)
            && (t.progress.Some? ==>
                  (AfterComplete(t).progress.value.completed <==>
                   forall a | a in t.accounts :: t.accounts[a] >= t.progress.value.target))
  {
    if steps != [] {
      var before := steps[..|steps| - 1];
      forall k | 0 <= k < |before| ensures !Outdates(Run(s, before[..k]), before[k]) {
        assert before[..k] == steps[..k];
      }
      CompletionCanBeTrusted(s, before);
      CompletionKeptExactly(Run(s, before), steps[|steps| - 1]);
    }
    if Run(s, steps).tables.progress.Some? {
      NoLaggards(Run(s, steps).tables);
    }
  }

  /** At every point of a run a complete rotation is free of laggards, exactly if no step of the run
      adds a lagging account to a completed rotation. */
  lemma CompletionTrustedExactly(s: System, steps: seq<Step>)
    requires CompletedFits(s.tables)
    ensures (forall k | 0 <= k <= |steps| :: CompletedFits(Run(s, steps[..k]).tables)) <==>
            (forall k | 0 <= k < |steps| :: !Outdates(Run(s, steps[..k]), steps[k]))
  {
    if forall k | 0 <= k <= |steps| :: CompletedFits(Run(s, steps[..k]).tables) {
      forall k | 0 <= k < |steps| ensures !Outdates(Run(s, steps[..k]), steps[k]) {
        assert steps[..k + 1][..k] == steps[..k];
        assert CompletedFits(Run(s, steps[..k]).tables) && CompletedFits(Run(s, steps[..k + 1]).tables);
        CompletionKeptExactly(Run(s, steps[..k]), steps[k]);
      }
    }
    if forall k | 0 <= k < |steps| :: !Outdates(Run(s, steps[..k]), steps[k]) {
      forall k | 0 <= k <= |steps| ensures CompletedFits(Run(s, steps[..k]).tables) {
        forall j | 0 <= j < k ensures !Outdates(Run(s, steps[..k][..j]), steps[..k][j]) {
          assert steps[..k][..j] == steps[..j];
        }
        CompletionCanBeTrusted(s, steps[..k]);
      }
    }
  }

  /** After completion the flag alone does not speak for accounts added later: completion is then
      reported although the new account lags. */
  lemma CompletionCanBeStale(t: Tables, version: int)
    requires InOrder(t) && t.progress.Some? && t.progress.value.completed && version < t.progress.value.target
    ensures var u := t.(accounts := t.accounts[NextId(t.accounts.Keys) := version]);
            && u.progress.value.completed && AfterComplete(u) == u && Lagging(u) != {}
            && NextPending(u).Some?
  {
    var id := NextId(t.accounts.Keys);
    var u := t.(accounts := t.accounts[id := version]);
    NewAccountIsLast(t);
    assert id in PendingIds(u);
  }
}
