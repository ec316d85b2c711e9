/** One scheduler tick: which channels get a poll job, under jitter redrawn on every tick. */
module SchedulerTick {
  import opened Basics

  /** A draw of the random generator on the unit interval. */
  type Draw = u: real | 0.0 <= u <= 1.0 witness 0.0

  datatype Channel = Channel(account: Id, enabled: bool)

  datatype PollState = PollState(pausedUntil: Option<real>, lastSuccess: Option<real>)

  /** `accounts` tells of each account whether it is paused. */
  datatype Tables = Tables(accounts: map<Id, bool>, channels: map<Id, Channel>, states: map<Id, PollState>)

  datatype Interval = Interval(seconds: int, ratio: real)

  // ----- specification -----

  function Schedulable(t: Tables): set<Id> {
    set c | c in t.channels && t.channels[c].enabled &&
            t.channels[c].account in t.accounts && !t.accounts[t.channels[c].account]
  }

  function StateOf(t: Tables, c: Id): PollState { if c in t.states then t.states[c] else PollState(None, None) }

  predicate Paused(s: PollState, now: real) { s.pausedUntil.Some? && s.pausedUntil.value > now }

  function Range(p: Interval): real { p.seconds as real * p.ratio }

  /** `uniform(a, b)`. */
  function Uniform(a: real, b: real, u: Draw): real { a + (b - a) * u }

  function Jitter(p: Interval, u: Draw): real { Uniform(-Range(p), Range(p), u) }

  predicate Due(s: PollState, now: real, p: Interval, u: Draw) {
    s.lastSuccess.None? || s.lastSuccess.value + (p.seconds as real + Jitter(p, u)) <= now
  }

  /** The channels a tick at `now` selects; `draw` gives each channel its jitter draw. */
  function Selected(t: Tables, now: real, p: Interval, draw: Id -> Draw): set<Id> {
    set c | c in Schedulable(t) && !Paused(StateOf(t, c), now) && Due(StateOf(t, c), now, p, draw(c))
  }

  /** The earliest and the latest time the jitter allows after a success. */
  function Spread(p: Interval): real { if Range(p) < 0.0 then -Range(p) else Range(p) }

  predicate MayBeDue(s: PollState, now: real, p: Interval) {
    s.lastSuccess.None? || s.lastSuccess.value + p.seconds as real - Spread(p) <= now
  }

  predicate MustBeDue(s: PollState, now: real, p: Interval) {
    s.lastSuccess.None? || s.lastSuccess.value + p.seconds as real + Spread(p) <= now
  }

  // ----- the tick -----

  /** `out` holds the first `k` ids that are selected, in ascending order. */
  ghost predicate Filtered(ids: seq<Id>, k: nat, selected: set<Id>, out: seq<Id>)
    requires k <= |ids|
  {
    && (forall i, j | 0 <= i < j < |ids| :: ids[i].n < ids[j].n)
    && (forall c :: c in out <==> c in ids[..k] && c in selected)
    && (forall i, j | 0 <= i < |out| && k <= j < |ids| :: out[i].n < ids[j].n)
    && (forall i, j | 0 <= i < j < |out| :: out[i].n < out[j].n)
  }

  lemma FilterStep(ids: seq<Id>, k: nat, selected: set<Id>, out: seq<Id>)
    requires k < |ids| && Filtered(ids, k, selected, out)
    ensures Filtered(ids, k + 1, selected, if ids[k] in selected then out + [ids[k]] else out)
  {
    var next := if ids[k] in selected then out + [ids[k]] else out;
    assert ids[..k + 1] == ids[..k] + [ids[k]];
    forall c ensures c in next <==> c in ids[..k + 1] && c in selected {
      assert c in next <==> c in out || (c == ids[k] && c in selected);
    }
  }

  lemma FilterEnds(ids: seq<Id>, selected: set<Id>, out: seq<Id>)
    requires Filtered(ids, |ids|, selected, out)
    ensures forall c :: c in out <==> c in ids && c in selected
  {
    assert ids[..|ids|] == ids;
  }

  datatype Job = Job(id: nat, channel: Id)

  class CoreLoop {
    const interval: Interval
    var tables: Tables
    /** The poll job rows, in insertion order. */
    var jobs: seq<Job>

    constructor (p: Interval, t: Tables)
      ensures interval == p && tables == t && jobs == []
    {
      interval, tables, jobs := p, t, [];
    }

    /** `_select_eligible_channels`. */
    method SelectEligible(now: real, draw: Id -> Draw) returns (eligible: seq<Id>)
      ensures forall c :: c in eligible <==> c in Selected(tables, now, interval, draw)
      ensures forall i, j | 0 <= i < j < |eligible| :: eligible[i].n < eligible[j].n
    {
      var ids := Ascending(Schedulable(tables));
      AscendingSorts(Schedulable(tables));
      eligible := [];
      ghost var selected := Selected(tables, now, interval, draw);
      var k: nat := 0;
      while k < |ids|
        invariant k <= |ids| && Filtered(ids, k, selected, eligible)
      {
        var state := StateOf(tables, ids[k]);
        FilterStep(ids, k, selected, eligible);
        if !Paused(state, now) && Due(state, now, interval, draw(ids[k])) {
          eligible := eligible + [ids[k]];
        }
        k := k + 1;
      }
      FilterEnds(ids, selected, eligible);
    }

    /** `run_once`: one job row per selected channel, in id order. */
    method RunOnce(now: real, draw: Id -> Draw) returns (queued: seq<Job>)
      modifies this`jobs
      ensures jobs == old(jobs) + queued
      ensures forall i | 0 <= i < |queued| :: queued[i].id == |old(jobs)| + i
      ensures forall i, j | 0 <= i < j < |queued| :: queued[i].channel.n < queued[j].channel.n
      ensures forall c :: (exists i :: 0 <= i < |queued| && queued[i].channel == c) <==>
                          c in Selected(tables, now, interval, draw)
    {
      var eligible := SelectEligible(now, draw);
      queued := [];
      while |queued| < |eligible|
        invariant |queued| <= |eligible| && jobs == old(jobs) + queued
        invariant forall i | 0 <= i < |queued| :: queued[i] == Job(|old(jobs)| + i, eligible[i])
      {
        var job := Job(|jobs|, eligible[|queued|]);
        jobs := jobs + [job];
        queued := queued + [job];
      }
      forall c | c in eligible ensures exists i :: 0 <= i < |queued| && queued[i].channel == c {
        var i :| 0 <= i < |eligible| && eligible[i] == c;
        assert queued[i].channel == c;
      }
    }
  }

  // ----- bounds -----

  lemma ProductSign(x: real, y: real)
    requires x >= 0.0 && y >= 0.0
    ensures x * y >= 0.0
  {
  }

  lemma UniformUp(a: real, b: real, u: Draw)
    requires a <= b
    ensures a <= Uniform(a, b, u) <= b
  {
    var d, v := b - a, 1.0 - u;
    ProductSign(d, u);
    ProductSign(d, v);
    assert d * u + d * v == d * (u + v) == d;
  }

  lemma UniformDown(a: real, b: real, u: Draw)
    requires b <= a
    ensures b <= Uniform(a, b, u) <= a
  {
    var d, v := a - b, 1.0 - u;
    ProductSign(d, u);
    ProductSign(d, v);
    assert d * u + d * v == d * (u + v) == d;
    assert (b - a) * u == -(d * u);
  }

  lemma UniformEnds(a: real, b: real)
    ensures Uniform(a, b, 0.0) == a && Uniform(a, b, 1.0) == b
  {
  }

  lemma JitterBound(p: Interval, u: Draw)
    ensures -Spread(p) <= Jitter(p, u) <= Spread(p)
    ensures Jitter(p, 0.0) == -Range(p) && Jitter(p, 1.0) == Range(p)
  {
    UniformEnds(-Range(p), Range(p));
    if Range(p) < 0.0 { UniformDown(-Range(p), Range(p), u); } else { UniformUp(-Range(p), Range(p), u); }
  }

  /** A tick can select a channel exactly from the early bound on, and selects it whatever is drawn
      exactly from the late bound on: both bounds are sharp. */
  lemma BoundsAreSharp(s: PollState, now: real, p: Interval)
    ensures (exists u: Draw :: Due(s, now, p, u)) <==> MayBeDue(s, now, p)
    ensures (forall u: Draw :: Due(s, now, p, u)) <==> MustBeDue(s, now, p)
  {
    forall u: Draw ensures -Spread(p) <= Jitter(p, u) <= Spread(p) { JitterBound(p, u); }
    JitterBound(p, 0.0);
    var early: Draw, late: Draw := if Range(p) < 0.0 then 1.0 else 0.0, if Range(p) < 0.0 then 0.0 else 1.0;
    assert Jitter(p, early) == -Spread(p) && Jitter(p, late) == Spread(p);
    assert Due(s, now, p, early) <==> MayBeDue(s, now, p);
    assert Due(s, now, p, late) <==> MustBeDue(s, now, p);
  }

  /** A selected channel is enabled, on an account that is not paused, not paused itself and past the
      early bound; a channel like that and past the late bound is selected. */
  lemma SelectionBounds(t: Tables, now: real, p: Interval, draw: Id -> Draw, c: Id)
    ensures c in Selected(t, now, p, draw) ==>
              c in Schedulable(t) && !Paused(StateOf(t, c), now) && MayBeDue(StateOf(t, c), now, p)
    ensures c in Schedulable(t) && !Paused(StateOf(t, c), now) && MustBeDue(StateOf(t, c), now, p) ==>
              c in Selected(t, now, p, draw)
  {
    BoundsAreSharp(StateOf(t, c), now, p);
    JitterBound(p, draw(c));
  }

  /** With the default ratio of one fifth the bounds are 0.8 and 1.2 of the interval. */
  lemma DefaultBounds(s: PollState, now: real, p: Interval)
    requires p.ratio == 0.2 && p.seconds >= 0 && s.lastSuccess.Some?
    ensures MayBeDue(s, now, p) <==> s.lastSuccess.value + 0.8 * p.seconds as real <= now
    ensures MustBeDue(s, now, p) <==> s.lastSuccess.value + 1.2 * p.seconds as real <= now
  {
    assert Range(p) == 0.2 * p.seconds as real;
  }

  /** The whole condition in columns: the channel is enabled and its account exists and is not paused; it is
      not paused itself beyond `now`; and it never succeeded, or the interval shifted by a draw from plus
      or minus ratio times the interval has passed since. */
  lemma SelectedExactly(t: Tables, now: real, p: Interval, draw: Id -> Draw, c: Id)
    ensures c in Selected(t, now, p, draw) <==>
            && c in t.channels && t.channels[c].enabled
            && t.channels[c].account in t.accounts && t.accounts[t.channels[c].account] == false
            && (c in t.states && t.states[c].pausedUntil.Some? ==> t.states[c].pausedUntil.value <= now)
            && (c in t.states && t.states[c].lastSuccess.Some? ==>
                  var range := p.seconds as real * p.ratio;
                  t.states[c].lastSuccess.value + (p.seconds as real + (-range + (range - -range) * draw(c))) <= now)
  {
  }
}
