/** The bot delivery loop: batches of undelivered clusters, failure counters, and the off switch. */
module BotDelivery {
  import opened Basics

  const FAILURE_LIMIT: nat := 3

  /** What sending one cluster leads to. A sent message may still fail to be recorded (`writeFails`),
      for instance when the cluster was merged away meanwhile. */
  datatype Reply = Sent(messageId: string, writeFails: bool) | TokenInvalid | SendFailed

  datatype Notice = TokenRevoked | DeliveryFailed(cluster: Id)

  /** One send attempt: sent and recorded, refused because of the token, or failed otherwise. */
  datatype Attempt = Attempt(cluster: Id, result: AttemptResult)
  datatype AttemptResult = Delivered | Refused | Failed

  /** `clusters` are those the undelivered query joins; `log` is the history of all attempts. */
  datatype System = System(
    clusters: set<Id>, deliveries: map<Id, string>, enabled: bool, configured: bool,
    failures: map<Id, nat>, notices: seq<Notice>, log: seq<Attempt>)

  // ----- specification -----

  /** The batch is the oldest undelivered clusters in id order: as many as the limit allows. */
  lemma OldestFirst(clusters: set<Id>, deliveries: map<Id, string>, limit: int, c: Id)
    requires c in clusters && c !in deliveries
    ensures var r := Undelivered(clusters, deliveries, limit);
            && Climbs(r) && (limit >= 0 ==> |r| <= limit)
            && (c in r || (|r| == limit && forall k | 0 <= k < |r| :: r[k].n < c.n))
  {
    AscendingSorts(clusters - deliveries.Keys);
    PrefixIsOldest(Ascending(clusters - deliveries.Keys), limit, c);
  }

  lemma PrefixIsOldest(all: seq<Id>, limit: int, c: Id)
    requires Climbs(all) && c in all
    ensures var r := if 0 <= limit < |all| then all[..limit] else all;
            Climbs(r) && (c in r || (|r| == limit && forall k | 0 <= k < |r| :: r[k].n < c.n))
  {
    var i :| 0 <= i < |all| && all[i] == c;
    if 0 <= limit < |all| && i < limit {
      assert all[..limit][i] == c;
    }
  }

  ghost predicate Climbs(batch: seq<Id>) {
    forall i, j | 0 <= i < j < |batch| :: batch[i].n < batch[j].n
  }

  /** The oldest undelivered clusters; a negative limit means no limit. */
  function Undelivered(clusters: set<Id>, deliveries: map<Id, string>, limit: int): (r: seq<Id>)
    ensures forall k | 0 <= k < |r| :: r[k] in clusters && r[k] !in deliveries
  {
    var all := Ascending(clusters - deliveries.Keys);
    if 0 <= limit < |all| then all[..limit] else all
  }

  function FailureCount(failures: map<Id, nat>, c: Id): nat {
    if c in failures then failures[c] else 0
  }

  function AfterFailure(s: System, c: Id): System {
    var f := FailureCount(s.failures, c) + 1;
    s.(failures := s.failures[c := if f >= FAILURE_LIMIT then 0 else f],
       notices := if f >= FAILURE_LIMIT then s.notices + [DeliveryFailed(c)] else s.notices,
       log := s.log + [Attempt(c, Failed)])
  }

  predicate Records(s: System, c: Id, reply: Reply) {
    reply.Sent? && !reply.writeFails && c in s.clusters && c !in s.deliveries
  }

  function AfterReply(s: System, c: Id, reply: Reply): System {
    if reply.TokenInvalid? then
      s.(enabled := false, notices := s.notices + [TokenRevoked], log := s.log + [Attempt(c, Refused)])
    else if Records(s, c, reply) then
      s.(deliveries := s.deliveries[c := reply.messageId], failures := s.failures - {c},
         log := s.log + [Attempt(c, Delivered)])
    else AfterFailure(s, c)
  }

  /** Process a batch in order; an invalid-token reply ends it. */
  function AfterBatch(s: System, batch: seq<Id>, replies: Id -> Reply): System {
    if batch == [] then s
    else
      var before := AfterBatch(s, batch[..|batch| - 1], replies);
      var c := batch[|batch| - 1];
      if before.enabled then AfterReply(before, c, replies(c)) else before
  }

  function AfterRun(s: System, limit: int, replies: Id -> Reply): System {
    if !s.enabled || !s.configured then s else AfterBatch(s, Undelivered(s.clusters, s.deliveries, limit), replies)
  }

  // ----- the loop as written -----

  class CoreLoop {
    var clusters: set<Id>
    var deliveries: map<Id, string>
    var enabled: bool
    var configured: bool
    var failures: map<Id, nat>
    var notices: seq<Notice>
    ghost var log: seq<Attempt>

    ghost function Snapshot(): System
      reads this
    {
      System(clusters, deliveries, enabled, configured, failures, notices, log)
    }

    /** Handle the reply for one entry; `stop` ends the batch. */
    method Handle(c: Id, reply: Reply) returns (recorded: bool, stop: bool)
      modifies this
      ensures Snapshot() == AfterReply(old(Snapshot()), c, reply)
      ensures stop == reply.TokenInvalid? && recorded == Records(old(Snapshot()), c, reply)
      ensures recorded <==> reply.Sent? && !reply.writeFails && c in old(clusters) && c !in old(deliveries)
      ensures deliveries == if recorded then old(deliveries)[c := reply.messageId] else old(deliveries)
      ensures stop ==> !enabled && notices == old(notices) + [TokenRevoked] && failures == old(failures)
      ensures recorded ==> failures == old(failures) - {c} && notices == old(notices)
    {
      recorded, stop := false, false;
      if reply.TokenInvalid? {
        notices := notices + [TokenRevoked];
        enabled := false;
        log := log + [Attempt(c, Refused)];
        stop := true;
      } else if reply.Sent? && !reply.writeFails && c in clusters && c !in deliveries {
        deliveries := deliveries[c := reply.messageId];
        failures := failures - {c};
        log := log + [Attempt(c, Delivered)];
        recorded := true;
      } else {
        var failCount := (if c in failures then failures[c] else 0) + 1;
        if failCount >= FAILURE_LIMIT {
          notices := notices + [DeliveryFailed(c)];
          failures := failures[c := 0];
        } else {
          failures := failures[c := failCount];
        }
        log := log + [Attempt(c, Failed)];
      }
    }

    /** One delivery run; `replies` is what sending each cluster would meet. */
    method RunOnce(limit: int, replies: Id -> Reply) returns (delivered: seq<Id>)
      modifies this
      ensures Snapshot() == AfterRun(old(Snapshot()), limit, replies)
      ensures forall c :: c in delivered <==> c in deliveries && c !in old(deliveries)
      ensures forall i, j | 0 <= i < j < |delivered| :: delivered[i].n < delivered[j].n
    {
      delivered := [];
      if !enabled || !configured {
        return;
      }
      var undelivered := Undelivered(clusters, deliveries, limit);
      ghost var s := Snapshot();
      UndeliveredClimbs(clusters, deliveries, limit);
      BatchStarts(s, undelivered, replies);
      var k: nat := 0;
      while k < |undelivered|
        invariant k <= |undelivered| && InBatch(s, undelivered, k, replies, Snapshot(), delivered)
      {
        var c := undelivered[k];
        BatchTurn(s, undelivered, k, replies, Snapshot(), delivered);
        var recorded, stop := Handle(c, replies(c));
        if stop {
          break;
        }
        if recorded {
          delivered := delivered + [c];
        }
        k := k + 1;
      }
      WholeBatch(undelivered);
    }
  }

  /** Those reported are exactly the clusters recorded since `before`, in ascending order, and all
      come before the rest of the batch. */
  ghost predicate NewlyRecorded(delivered: seq<Id>, before: map<Id, string>, after: map<Id, string>, rest: seq<Id>) {
    && (forall c :: c in delivered <==> c in after && c !in before)
    && before.Keys <= after.Keys
    && (forall i, j | 0 <= i < j < |delivered| :: delivered[i].n < delivered[j].n)
    && (forall i, j | 0 <= i < |delivered| && 0 <= j < |rest| :: delivered[i].n < rest[j].n)
  }

  lemma RecordsOnce(delivered: seq<Id>, before: map<Id, string>, s: System, rest: seq<Id>, reply: Reply)
    requires NewlyRecorded(delivered, before, s.deliveries, rest) && Climbs(rest) && rest != []
    ensures NewlyRecorded(if Records(s, rest[0], reply) then delivered + [rest[0]] else delivered, before,
                          AfterReply(s, rest[0], reply).deliveries, rest[1..])
  {
    if Records(s, rest[0], reply) {
      RecordsNext(delivered, before, s.deliveries, rest, reply.messageId);
    }
  }

  lemma RecordsNext(delivered: seq<Id>, before: map<Id, string>, now: map<Id, string>, rest: seq<Id>, messageId: string)
    requires NewlyRecorded(delivered, before, now, rest) && Climbs(rest) && rest != [] && rest[0] !in now
    ensures NewlyRecorded(delivered + [rest[0]], before, now[rest[0] := messageId], rest[1..])
  {
    InAppend(delivered, rest[0]);
  }

  lemma InAppend(ids: seq<Id>, x: Id)
    ensures forall c :: c in ids + [x] <==> c in ids || c == x
  {
  }

  lemma BatchStep(s: System, batch: seq<Id>, k: nat, replies: Id -> Reply)
    requires k < |batch|
    ensures var before := AfterBatch(s, batch[..k], replies);
            AfterBatch(s, batch[..k + 1], replies) ==
            if before.enabled then AfterReply(before, batch[k], replies(batch[k])) else before
  {
    assert batch[..k + 1][..k] == batch[..k];
  }

  /** The state after `k` entries of a batch that has not been ended. */
  ghost predicate InBatch(
    s: System, batch: seq<Id>, k: nat, replies: Id -> Reply, now: System, delivered: seq<Id>)
    requires k <= |batch|
  {
    && now == AfterBatch(s, batch[..k], replies) && now.enabled && Climbs(batch)
    && NewlyRecorded(delivered, s.deliveries, now.deliveries, batch[k..])
  }

  /** One entry either ends the batch with everything accounted for, or leads to the next one. */
  lemma BatchTurn(s: System, batch: seq<Id>, k: nat, replies: Id -> Reply, now: System, delivered: seq<Id>)
    requires k < |batch| && InBatch(s, batch, k, replies, now, delivered)
    ensures var reply := replies(batch[k]);
            var next := AfterReply(now, batch[k], reply);
            if reply.TokenInvalid? then
              next == AfterBatch(s, batch, replies) &&
                  NewlyRecorded(delivered, s.deliveries, next.deliveries, batch[k + 1..])
            else
              InBatch(s, batch, k + 1, replies, next, if Records(now, batch[k], reply) then delivered + [batch[k]]
                      else delivered)
  {
    BatchStep(s, batch, k, replies);
    assert batch[k..][0] == batch[k] && batch[k..][1..] == batch[k + 1..];
    RecordsOnce(delivered, s.deliveries, now, batch[k..], replies(batch[k]));
    if replies(batch[k]).TokenInvalid? { StoppedBatch(s, batch, k + 1, replies); }
  }

  lemma {:induction false} StoppedBatch(s: System, batch: seq<Id>, k: nat, replies: Id -> Reply)
    requires k <= |batch| && !AfterBatch(s, batch[..k], replies).enabled
    ensures AfterBatch(s, batch, replies) == AfterBatch(s, batch[..k], replies)
    decreases |batch| - k
  {
    if k == |batch| {
      assert batch[..k] == batch;
    } else {
      BatchStep(s, batch, k, replies);
      StoppedBatch(s, batch, k + 1, replies);
    }
  }

  lemma BatchStarts(s: System, batch: seq<Id>, replies: Id -> Reply)
    requires s.enabled && Climbs(batch)
    ensures InBatch(s, batch, 0, replies, s, [])
  {
    assert batch[..0] == [];
  }

  lemma UndeliveredClimbs(clusters: set<Id>, deliveries: map<Id, string>, limit: int)
    ensures Climbs(Undelivered(clusters, deliveries, limit))
  {
    AscendingSorts(clusters - deliveries.Keys);
  }

  lemma WholeBatch(batch: seq<Id>)
    ensures batch[..|batch|] == batch
  {
  }

  // ----- runs of the loop, interleaved with everything else -----

  datatype Step =
    | RunOnce(limit: int, replies: Id -> Reply)
    | Enable | Disable | Configure(present: bool)
    | AddCluster(cluster: Id)
    | RemoveCluster(cluster: Id)  // merge, prune or purge; the delivery row cascades

  ghost function Next(s: System, step: Step): System {
    match step
    case RunOnce(limit, replies) => AfterRun(s, limit, replies)
    case Enable => s.(enabled := true)
    case Disable => s.(enabled := false)
    case Configure(present) => s.(configured := present)
    case AddCluster(c) => s.(clusters := s.clusters + {c})
    case RemoveCluster(c) => s.(clusters := s.clusters - {c}, deliveries := s.deliveries - {c})
  }

  ghost function Run(s: System, steps: seq<Step>): System {
    if steps == [] then s else Next(Run(s, steps[..|steps| - 1]), steps[|steps| - 1])
  }

  const FRESH_SYSTEM := System({}, map[], false, false, map[], [], [])

  /** The failures of `c` since its last recorded delivery. */
  ghost function Streak(log: seq<Attempt>, c: Id): nat {
    if log == [] then 0
    else
      var last, before := log[|log| - 1], Streak(log[..|log| - 1], c);
      if last.cluster != c || last.result == Refused then before else if last.result == Delivered then 0 else before + 1
  }

  /** One notice for every third failure in a row. */
  ghost function NoticesDue(log: seq<Attempt>, c: Id): nat {
    if log == [] then 0
    else NoticesDue(log[..|log| - 1], c) +
         (if log[|log| - 1] == Attempt(c, Failed) && Streak(log, c) % FAILURE_LIMIT == 0 then 1 else 0)
  }

  ghost function NoticeCount(notices: seq<Notice>, c: Id): nat {
    if notices == [] then 0
    else NoticeCount(notices[..|notices| - 1], c) + (if notices[|notices| - 1] == DeliveryFailed(c) then 1 else 0)
  }

  ghost predicate WasDelivered(log: seq<Attempt>, c: Id) {
    exists k :: 0 <= k < |log| && log[k] == Attempt(c, Delivered)
  }

  /** The counters and notices are those of the attempt history, and every row comes from a delivery. */
  ghost predicate Counted(s: System, c: Id) {
    && FailureCount(s.failures, c) == Streak(s.log, c) % FAILURE_LIMIT
    && NoticeCount(s.notices, c) == NoticesDue(s.log, c)
    && (c in s.deliveries ==> WasDelivered(s.log, c) && c in s.clusters)
  }

  lemma LogAppend(log: seq<Attempt>, a: Attempt, c: Id)
    ensures Streak(log + [a], c) ==
            if a.cluster != c || a.result == Refused then Streak(log, c) else if a.result == Delivered then 0
                else Streak(log, c) + 1
    ensures NoticesDue(log + [a], c) ==
            NoticesDue(log, c) + (if a == Attempt(c, Failed) && Streak(log + [a], c) % FAILURE_LIMIT == 0 then 1 else 0)
    ensures WasDelivered(log, c) || a == Attempt(c, Delivered) ==> WasDelivered(log + [a], c)
  {
    assert (log + [a])[..|log|] == log;
    if WasDelivered(log, c) {
      var k :| 0 <= k < |log| && log[k] == Attempt(c, Delivered);
      assert (log + [a])[k] == Attempt(c, Delivered);
    } else {
      assert (log + [a])[|log|] == a;
    }
  }

  lemma NoticeAppend(notices: seq<Notice>, n: Notice, c: Id)
    ensures NoticeCount(notices + [n], c) == NoticeCount(notices, c) + (if n == DeliveryFailed(c) then 1 else 0)
  {
    assert (notices + [n])[..|notices|] == notices;
  }

  lemma FailureCounts(s: System, x: Id, c: Id)
    requires Counted(s, c)
    ensures Counted(AfterFailure(s, x), c)
  {
    NoticeAppend(s.notices, DeliveryFailed(x), c);
    LogAppend(s.log, Attempt(x, Failed), c);
    CountMod(Streak(s.log, c));
  }

  lemma CountMod(streak: nat)
    ensures (streak + 1) % FAILURE_LIMIT == if streak % FAILURE_LIMIT + 1 >= FAILURE_LIMIT then 0
            else streak % FAILURE_LIMIT + 1
  {
  }

  lemma DeliveryCounts(s: System, x: Id, messageId: string, c: Id)
    requires Counted(s, c) && x in s.clusters
    ensures Counted(s.(deliveries := s.deliveries[x := messageId], failures := s.failures - {x},
                       log := s.log + [Attempt(x, Delivered)]), c)
  {
    LogAppend(s.log, Attempt(x, Delivered), c);
  }

  lemma TokenCounts(s: System, x: Id, c: Id)
    requires Counted(s, c)
    ensures Counted(s.(enabled := false, notices := s.notices + [TokenRevoked], log := s.log + [Attempt(x, Refused)]),
                    c)
  {
    LogAppend(s.log, Attempt(x, Refused), c);
    NoticeAppend(s.notices, TokenRevoked, c);
  }

  lemma ReplyCounts(s: System, x: Id, reply: Reply, c: Id)
    requires Counted(s, c)
    ensures Counted(AfterReply(s, x, reply), c)
  {
    if reply.TokenInvalid? {
      TokenCounts(s, x, c);
    } else if Records(s, x, reply) {
      DeliveryCounts(s, x, reply.messageId, c);
    } else {
      FailureCounts(s, x, c);
    }
  }

  lemma {:induction false} BatchCounts(s: System, batch: seq<Id>, replies: Id -> Reply, c: Id)
    requires Counted(s, c)
    ensures Counted(AfterBatch(s, batch, replies), c)
  {
    if batch != [] {
      BatchCounts(s, batch[..|batch| - 1], replies, c);
      var x := batch[|batch| - 1];
      ReplyCounts(AfterBatch(s, batch[..|batch| - 1], replies), x, replies(x), c);
    }
  }

  lemma StepCounts(s: System, step: Step, c: Id)
    requires Counted(s, c)
    ensures Counted(Next(s, step), c)
  {
    if step.RunOnce? {
      BatchCounts(s, Undelivered(s.clusters, s.deliveries, step.limit), step.replies, c);
    }
  }

  lemma {:induction false} RunCounts(steps: seq<Step>, c: Id)
    ensures Counted(Run(FRESH_SYSTEM, steps), c)
  {
    if steps != [] {
      RunCounts(steps[..|steps| - 1], c);
      StepCounts(Run(FRESH_SYSTEM, steps[..|steps| - 1]), steps[|steps| - 1], c);
    }
  }

  /** The notices of the current failure streak are a third of it, on top of those before it. */
  lemma {:induction false} StreakNotices(log: seq<Attempt>, c: Id) returns (start: nat)
    ensures start <= |log| && Streak(log[..start], c) == 0
    ensures forall k | start <= k < |log| :: log[k] != Attempt(c, Delivered)
    ensures NoticesDue(log, c) == NoticesDue(log[..start], c) + Streak(log, c) / FAILURE_LIMIT
    ensures !WasDelivered(log, c) ==> start == 0
    decreases |log|
  {
    if log == [] {
      start := 0;
    } else if log[|log| - 1] == Attempt(c, Delivered) {
      start := |log|;
      assert log[..start] == log;
    } else {
      var before := log[..|log| - 1];
      start := StreakNotices(before, c);
      assert log[..start] == before[..start];
      if WasDelivered(before, c) {
        var k :| 0 <= k < |before| && before[k] == Attempt(c, Delivered);
        assert log[k] == Attempt(c, Delivered);
      }
    }
  }

  /** After any run of the system: with `f` failures in a row on a cluster the counter is f mod 3, and
      since that streak began f div 3 notices were written; a delivery row only exists for a cluster
      that was sent and recorded. */
  lemma FailureAccounting(steps: seq<Step>, c: Id)
    ensures var s := Run(FRESH_SYSTEM, steps);
            && FailureCount(s.failures, c) == Streak(s.log, c) % 3
            && (exists start: nat :: start <= |s.log| && Streak(s.log[..start], c) == 0
                  && (forall k | start <= k < |s.log| :: s.log[k] != Attempt(c, Delivered))
                  && NoticeCount(s.notices, c) == NoticesDue(s.log[..start], c) + Streak(s.log, c) / 3)
            && (!WasDelivered(s.log, c) ==> NoticeCount(s.notices, c) == Streak(s.log, c) / 3)
            && (c in s.deliveries ==> WasDelivered(s.log, c))
  {
    RunCounts(steps, c);
    var start := StreakNotices(Run(FRESH_SYSTEM, steps).log, c);
  }

  // ----- no second send, and silence -----

  /** How often `c` was attempted. */
  ghost function AttemptsOn(log: seq<Attempt>, c: Id): nat {
    if log == [] then 0 else AttemptsOn(log[..|log| - 1], c) + (if log[|log| - 1].cluster == c then 1 else 0)
  }

  lemma AttemptAppend(log: seq<Attempt>, a: Attempt, c: Id)
    ensures AttemptsOn(log + [a], c) == AttemptsOn(log, c) + (if a.cluster == c then 1 else 0)
  {
    assert (log + [a])[..|log|] == log;
  }

  /** The delivery row and the attempts of `c` are the same in both systems. */
  ghost predicate SameDelivery(s: System, t: System, c: Id) {
    c in s.deliveries && c in t.deliveries && t.deliveries[c] == s.deliveries[c] &&
        AttemptsOn(t.log, c) == AttemptsOn(s.log, c)
  }

  lemma ReplySkips(s: System, x: Id, reply: Reply, c: Id)
    requires c in s.deliveries && x != c
    ensures SameDelivery(s, AfterReply(s, x, reply), c)
  {
    AttemptAppend(s.log, Attempt(x, Delivered), c);
    AttemptAppend(s.log, Attempt(x, Failed), c);
    AttemptAppend(s.log, Attempt(x, Refused), c);
  }

  lemma {:induction false} BatchSkips(s: System, batch: seq<Id>, replies: Id -> Reply, c: Id)
    requires c in s.deliveries && c !in batch
    ensures SameDelivery(s, AfterBatch(s, batch, replies), c)
  {
    if batch != [] {
      var x := batch[|batch| - 1];
      BatchSkips(s, batch[..|batch| - 1], replies, c);
      ReplySkips(AfterBatch(s, batch[..|batch| - 1], replies), x, replies(x), c);
    }
  }

  lemma StepSkips(s: System, step: Step, c: Id)
    requires c in s.deliveries && step != RemoveCluster(c)
    ensures SameDelivery(s, Next(s, step), c)
  {
    if step.RunOnce? {
      BatchSkips(s, Undelivered(s.clusters, s.deliveries, step.limit), step.replies, c);
    }
  }

  /** A delivered cluster is never sent again while its row stays. */
  lemma {:induction false} NotSentAgain(s: System, steps: seq<Step>, c: Id)
    requires c in s.deliveries && forall i | 0 <= i < |steps| :: steps[i] != RemoveCluster(c)
    ensures SameDelivery(s, Run(s, steps), c)
  {
    if steps != [] {
      NotSentAgain(s, steps[..|steps| - 1], c);
      StepSkips(Run(s, steps[..|steps| - 1]), steps[|steps| - 1], c);
    }
  }

  /** An invalid-token reply ends the batch there and switches delivery off. */
  lemma TokenInvalidEndsBatch(s: System, batch: seq<Id>, k: nat, replies: Id -> Reply)
    requires k < |batch| && AfterBatch(s, batch[..k], replies).enabled && replies(batch[k]).TokenInvalid?
    ensures var t := AfterBatch(s, batch, replies);
            !t.enabled && t.log == AfterBatch(s, batch[..k], replies).log + [Attempt(batch[k], Refused)]
            && t.notices == AfterBatch(s, batch[..k], replies).notices + [TokenRevoked]
  {
    BatchStep(s, batch, k, replies);
    StoppedBatch(s, batch, k + 1, replies);
  }

  /** While delivery is off nothing is sent, recorded or counted, until it is switched on again. */
  lemma {:induction false} SilentUntilEnabled(s: System, steps: seq<Step>)
    requires !s.enabled && forall i | 0 <= i < |steps| :: !steps[i].Enable?
    ensures Silent(s, Run(s, steps))
  {
    if steps != [] {
      SilentUntilEnabled(s, steps[..|steps| - 1]);
      SilentStep(Run(s, steps[..|steps| - 1]), steps[|steps| - 1]);
    }
  }

  lemma SilentStep(s: System, step: Step)
    requires !s.enabled && !step.Enable?
    ensures Silent(s, Next(s, step))
  {
  }

  ghost predicate Silent(s: System, t: System) {
    !t.enabled && t.log == s.log && t.failures == s.failures && t.notices == s.notices
  }
}
