/** Account-risk escalation: a stored list of recent breaches that stands for the full history. */
module AccountRisk {
  import opened Basics

  const WINDOW_SECONDS := 3600
  const THRESHOLD := 3

  datatype Notice = Notice(pausedAt: int, breachCount: nat)

  /** One account: whether its row exists, its pause state, the stored breaches and the notices written. */
  datatype Account = Account(present: bool, pausedAt: Option<int>, stored: seq<int>, notices: seq<Notice>)

  /** The breaches at or after the start of the window that ends at `now`. */
  function FilterRecent(breaches: seq<int>, now: int): seq<int> {
    if breaches == [] then []
    else
      var rest := FilterRecent(breaches[..|breaches| - 1], now);
      if breaches[|breaches| - 1] >= now - WINDOW_SECONDS then rest + [breaches[|breaches| - 1]] else rest
  }

  /** How many breaches lie in the closed window [now - 3600, now]. */
  ghost function InWindow(breaches: seq<int>, now: int): nat {
    if breaches == [] then 0
    else InWindow(breaches[..|breaches| - 1], now) + (if now - WINDOW_SECONDS <= breaches[|breaches| - 1] <= now
                                                      then 1 else 0)
  }

  function AfterBreach(a: Account, now: int): Account {
    if !a.present || a.pausedAt.Some? then a
    else
      var breaches := FilterRecent(a.stored, now) + [now];
      if |breaches| < THRESHOLD then a.(stored := breaches)
      else a.(pausedAt := Some(now), stored := [], notices := a.notices + [Notice(now, |breaches|)])
  }

  /** The rows of one account. */
  class RiskStore {
    var account: Account

    constructor (account: Account)
      ensures this.account == account
    {
      this.account := account;
    }

    /** Record a breach; returns the pause time when the account is paused afterwards. */
    method RecordBreach(now: int) returns (paused: Option<int>)
      modifies this
      ensures account == AfterBreach(old(account), now)
      ensures paused == if old(account).present then account.pausedAt else None
    {
      if !account.present {
        return None;
      }
      if account.pausedAt.Some? {
        return account.pausedAt;
      }
      var breaches := [];
      for k := 0 to |account.stored|
        invariant account == old(account) && breaches == FilterRecent(account.stored[..k], now)
      {
        if account.stored[k] >= now - WINDOW_SECONDS {
          breaches := breaches + [account.stored[k]];
        }
        assert account.stored[..k + 1][..k] == account.stored[..k];
      }
      assert account.stored[..|account.stored|] == account.stored;
      breaches := breaches + [now];
      if |breaches| < THRESHOLD {
        account := account.(stored := breaches);
        return None;
      }
      account := account.(pausedAt := Some(now), stored := []);
      account := account.(notices := account.notices + [Notice(now, |breaches|)]);
      paused := Some(now);
    }
  }

  // ----- the reference: full history -----

  /** What happens to an account: a breach, a pause from elsewhere, or a resume. */
  datatype Event = Breach(now: int) | Pause(now: int) | Resume

  /** The account together with everything recorded since escalation last paused it. */
  datatype Trace = Trace(account: Account, history: seq<int>, clock: int, escalations: nat)

  ghost predicate Escalates(t: Trace, now: int) {
    t.account.present && t.account.pausedAt.None? && InWindow(t.history + [now], now) >= THRESHOLD
  }

  /** One event; the history half knows nothing of the stored list. */
  ghost function Next(t: Trace, e: Event): Trace {
    match e
    case Breach(now) =>
      var recorded := t.account.present && t.account.pausedAt.None?;
      Trace(AfterBreach(t.account, now),
            if !recorded then t.history else if Escalates(t, now) then [] else t.history + [now],
            now,
            if Escalates(t, now) then t.escalations + 1 else t.escalations)
    case Pause(now) => t.(account := if t.account.present then t.account.(pausedAt := Some(now)) else t.account)
    case Resume => t.(account := t.account.(pausedAt := None))
  }

  ghost predicate Ordered(events: seq<Event>, clock: int) {
    events != [] ==>
      && Ordered(events[..|events| - 1], clock)
      && (events[|events| - 1].Breach? ==> events[|events| - 1].now >= ClockAfter(events[..|events| - 1], clock))
  }

  /** The time of the last breach. */
  ghost function ClockAfter(events: seq<Event>, clock: int): int {
    if events == [] then clock
    else if events[|events| - 1].Breach? then events[|events| - 1].now
    else ClockAfter(events[..|events| - 1], clock)
  }

  ghost function Run(t: Trace, events: seq<Event>): Trace {
    if events == [] then t else Next(Run(t, events[..|events| - 1]), events[|events| - 1])
  }

  /** The stored list is the window part of the history as of the last recorded breach. */
  ghost predicate Inv(t: Trace) {
    && (forall k | 0 <= k < |t.history| :: t.history[k] <= t.clock)
    && (if t.history == [] then t.account.stored == []
        else t.account.stored == FilterRecent(t.history, t.history[|t.history| - 1]))
    && |t.account.stored| < THRESHOLD
    && |t.account.notices| == t.escalations
  }

  /** Filtering by an earlier and then by a later time is filtering by the later one. */
  lemma {:induction false} FilterTwice(b: seq<int>, earlier: int, later: int)
    requires earlier <= later
    ensures FilterRecent(FilterRecent(b, earlier), later) == FilterRecent(b, later)
  {
    if b != [] {
      var rest := FilterRecent(b[..|b| - 1], earlier);
      FilterTwice(b[..|b| - 1], earlier, later);
      assert (rest + [b[|b| - 1]])[..|rest|] == rest;
    }
  }

  lemma FilterAppend(b: seq<int>, now: int)
    ensures FilterRecent(b + [now], now) == FilterRecent(b, now) + [now]
  {
    assert (b + [now])[..|b|] == b;
  }

  lemma {:induction false} FilterCounts(b: seq<int>, now: int)
    requires forall k | 0 <= k < |b| :: b[k] <= now
    ensures |FilterRecent(b, now)| == InWindow(b, now)
  {
    if b != [] {
      FilterCounts(b[..|b| - 1], now);
    }
  }

  /** What the code filters at a breach is the window of the whole history. */
  lemma WindowOfHistory(t: Trace, now: int)
    requires Inv(t) && now >= t.clock
    ensures FilterRecent(t.account.stored, now) + [now] == FilterRecent(t.history + [now], now)
    ensures |FilterRecent(t.account.stored, now) + [now]| == InWindow(t.history + [now], now)
  {
    FilterAppend(t.history, now);
    FilterCounts(t.history + [now], now);
    if t.history != [] {
      FilterTwice(t.history, t.history[|t.history| - 1], now);
    }
  }

  lemma {:induction false} InWindowIsCount(b: seq<int>, now: int)
    ensures InWindow(b, now) == |set k | 0 <= k < |b| && now - 3600 <= b[k] <= now|
  {
    var all := set k | 0 <= k < |b| && now - 3600 <= b[k] <= now;
    if b != [] {
      var before, n := b[..|b| - 1], |b| - 1;
      var rest := set k | 0 <= k < |before| && now - 3600 <= before[k] <= now;
      InWindowIsCount(before, now);
      assert forall k | 0 <= k < n :: before[k] == b[k];
      if now - 3600 <= b[n] <= now {
        assert all == rest + {n} && n !in rest;
      } else {
        assert all == rest;
      }
    }
  }

  /** At a breach the account is paused exactly when the full history says so, with one notice. */
  lemma BreachAgrees(t: Trace, now: int)
    requires Inv(t) && now >= t.clock
    ensures var a := Next(t, Breach(now)).account;
            if Escalates(t, now)
            then a.pausedAt == Some(now) &&
                 a.notices == t.account.notices + [Notice(now, InWindow(t.history + [now], now))]
            else a.pausedAt == t.account.pausedAt && a.notices == t.account.notices
    ensures Inv(Next(t, Breach(now)))
  {
    WindowOfHistory(t, now);
  }

  lemma {:induction false} RunAgrees(t: Trace, events: seq<Event>)
    requires Inv(t) && Ordered(events, t.clock)
    ensures Inv(Run(t, events)) && Run(t, events).clock == ClockAfter(events, t.clock)
  {
    if events != [] {
      var before := events[..|events| - 1];
      RunAgrees(t, before);
      if events[|events| - 1].Breach? {
        BreachAgrees(Run(t, before), events[|events| - 1].now);
      }
    }
  }

  /** From an empty start and with a clock that does not run backwards, after any events: a breach
      pauses an unpaused account exactly when at least three breaches recorded since the last
      escalation lie in the closed window; the stored list never exceeds two entries; and there are
      as many notices as escalations. */
  lemma SlidingWindowIsFullHistory(present: bool, clock: int, events: seq<Event>, now: int)
    requires Ordered(events, clock) && now >= ClockAfter(events, clock)
    ensures var t := Run(Trace(Account(present, None, [], []), [], clock, 0), events);
            var after := Next(t, Breach(now));
            && |t.account.stored| <= 2 && |t.account.notices| == t.escalations
            && (t.account.present && t.account.pausedAt.None? ==>
                  var breaches := t.history + [now];
                  var recent := set k | 0 <= k < |breaches| && now - 3600 <= breaches[k] <= now;
                  after.account.pausedAt.Some? <==> |recent| >= 3)
            && (|after.account.notices| > |t.account.notices| <==>
                t.account.pausedAt.None? && after.account.pausedAt.Some?)
  {
    var start := Trace(Account(present, None, [], []), [], clock, 0);
    RunAgrees(start, events);
    BreachAgrees(Run(start, events), now);
    InWindowIsCount(Run(start, events).history + [now], now);
  }
}
