/** Application startup and shutdown: which hooks the lifespan calls, in which order, whatever fails.

    The six dependencies are slots that hold hook objects; shutdown recognises a started dependency by
    object identity, so the same object may sit in several slots. No task is cancelled from outside. */
module Lifecycle {
  import opened Basics

  datatype Slot = Db | Settings | Auth | Telethon | Scheduler | Bot

  datatype Failure = TimeoutError | OtherError(code: nat)

  /** How a shutdown hook ends. `Overran` is a hook still running at the time limit: the two bounded
      hooks are cut off there, the others are awaited to their normal end. */
  datatype HookEnd = Returned | Raised(failure: Failure) | Overran

  /** The object in a slot and how its hooks end when called from there. */
  datatype Dependency = Dependency(id: Id, start: Option<Failure>, stop: HookEnd)

  /** Everything the outside decides about one lifespan. */
  datatype World = World(
    db: Dependency,
    settings: Dependency,
    auth: Dependency,
    telethon: Dependency,
    scheduler: Dependency,
    bot: Dependency,
    runtime: Option<Failure>,
    queue: Option<Failure>,
    cookieKey: Option<Failure>,
    serving: Option<Failure>,
    closing: Option<Failure>,
    disposal: Option<Failure>)
  {
    function At(s: Slot): Dependency {
      match s
      case Db => db
      case Settings => settings
      case Auth => auth
      case Telethon => telethon
      case Scheduler => scheduler
      case Bot => bot
    }

    function IdAt(s: Slot): Id { At(s).id }

    function StartFailure(s: Slot): Option<Failure> { At(s).start }

    function StopEnd(s: Slot): HookEnd { At(s).stop }
  }

  /** A call made by the lifespan; `StartFailed` is a startup hook that raised. */
  datatype Event = Started(slot: Slot) | StartFailed(slot: Slot) | Serving
                 | Stopped(slot: Slot) | QueueClosed | Disposed

  function StartOrder(): seq<Slot> { [Db, Settings, Auth, Telethon, Scheduler, Bot] }

  // ----- specification: startup -----

  /** The first startup hook from `k` on that raises, or 6. */
  function FirstFailing(w: World, k: nat): (n: nat)
    requires k <= 6
    ensures k <= n <= 6
    ensures forall j | k <= j < n :: w.StartFailure(StartOrder()[j]).None?
    ensures n < 6 ==> w.StartFailure(StartOrder()[n]).Some?
    decreases 6 - k
  {
    if k == 6 || w.StartFailure(StartOrder()[k]).Some? then k else FirstFailing(w, k + 1)
  }

  /** Whether the storage runtime, then the queue too, is there at shutdown. */
  predicate HasRuntime(w: World) { w.runtime.None? }
  predicate HasQueue(w: World) { w.runtime.None? && w.queue.None? }

  /** The dependencies that were started, in order. */
  function StartedSlots(w: World): seq<Slot> {
    if HasQueue(w) then StartOrder()[..FirstFailing(w, 0)] else []
  }

  function StartEvents(slots: seq<Slot>): seq<Event> { seq(|slots|, i requires 0 <= i < |slots| => Started(slots[i])) }

  function Startup(w: World): seq<Event> {
    if !HasQueue(w) then []
    else
      var n := FirstFailing(w, 0);
      StartEvents(StartOrder()[..n]) +
      if n < 6 then [StartFailed(StartOrder()[n])] else if w.cookieKey.None? then [Serving] else []
  }

  /** What the body of the lifespan raises. */
  function BodyFailure(w: World): Option<Failure> {
    if w.runtime.Some? then w.runtime
    else if w.queue.Some? then w.queue
    else
      var n := FirstFailing(w, 0);
      if n < 6 then w.StartFailure(StartOrder()[n])
      else if w.cookieKey.Some? then w.cookieKey
      else w.serving
  }

  // ----- specification: shutdown -----

  function Identities(w: World, slots: seq<Slot>): set<Id> { set s | s in slots :: w.IdAt(s) }

  /** The stop of one slot, if its object was started. */
  function StopOf(w: World, slot: Slot, started: set<Id>): seq<Event> {
    if w.IdAt(slot) in started then [Stopped(slot)] else []
  }

  function Stops(w: World, slots: seq<Slot>, started: set<Id>): seq<Event> {
    if slots == [] then []
    else Stops(w, slots[..|slots| - 1], started) + StopOf(w, slots[|slots| - 1], started)
  }

  /** A bounded hook that raises `TimeoutError` itself: the handler for the time limit awaits the
      finished task once more and lets its error out of the whole shutdown. */
  predicate Escapes(w: World, slot: Slot, started: set<Id>) {
    w.IdAt(slot) in started && w.StopEnd(slot) == Raised(TimeoutError)
  }

  function Producers(w: World, started: set<Id>): seq<Event> {
    StopOf(w, Bot, started) + StopOf(w, Scheduler, started)
  }

  function Clients(w: World, started: set<Id>): seq<Event> {
    StopOf(w, Telethon, started) + StopOf(w, Auth, started) + StopOf(w, Settings, started) + StopOf(w, Db, started)
  }

  function Closing(w: World): seq<Event> { if HasQueue(w) then [QueueClosed] else [] }

  function Disposal(w: World): seq<Event> { if HasRuntime(w) then [Disposed] else [] }

  function Teardown(w: World, started: set<Id>): seq<Event> {
    if Escapes(w, Bot, started) then [Stopped(Bot)]
    else if Escapes(w, Scheduler, started) then Producers(w, started)
    else Producers(w, started) + Closing(w) + Clients(w, started) + Disposal(w)
  }

  /** How the call behind an event failed, as far as the shutdown records it. */
  function FailureOf(w: World, e: Event): seq<Failure> {
    match e
    case Stopped(s) => if w.StopEnd(s).Raised? then [w.StopEnd(s).failure] else []
    case QueueClosed => if w.closing.Some? then [w.closing.value] else []
    case Disposed => if w.disposal.Some? then [w.disposal.value] else []
    case _ => []
  }

  /** The failures of a run of calls, in order. */
  function Failures(w: World, trace: seq<Event>): seq<Failure> {
    if trace == [] then []
    else Failures(w, trace[..|trace| - 1]) + FailureOf(w, trace[|trace| - 1])
  }

  function First(errors: seq<Failure>): Option<Failure> { if errors == [] then None else Some(errors[0]) }

  lemma FailuresAppend(w: World, trace: seq<Event>, e: Event)
    ensures Failures(w, trace + [e]) == Failures(w, trace) + FailureOf(w, e)
  {
    assert (trace + [e])[..|trace|] == trace;
  }

  lemma StopsAppend(w: World, slots: seq<Slot>, s: Slot, started: set<Id>)
    ensures Stops(w, slots + [s], started) == Stops(w, slots, started) + StopOf(w, s, started)
  {
    assert (slots + [s])[..|slots|] == slots;
  }

  lemma StopsNext(w: World, slots: seq<Slot>, k: nat, started: set<Id>, before: seq<Event>)
    requires k < |slots|
    ensures before + Stops(w, slots[..k + 1], started) ==
            before + Stops(w, slots[..k], started) + StopOf(w, slots[k], started)
  {
    assert slots[..k + 1] == slots[..k] + [slots[k]];
    StopsAppend(w, slots[..k], slots[k], started);
  }

  lemma TwoStops(w: World, a: Slot, b: Slot, started: set<Id>)
    ensures Stops(w, [a, b], started) == StopOf(w, a, started) + StopOf(w, b, started)
  {
    StopsAppend(w, [], a, started);
    StopsAppend(w, [a], b, started);
    assert [] + [a] == [a] && [a] + [b] == [a, b];
  }

  lemma FourStops(w: World, a: Slot, b: Slot, c: Slot, d: Slot, started: set<Id>)
    ensures Stops(w, [a, b, c, d], started) ==
            StopOf(w, a, started) + StopOf(w, b, started) + StopOf(w, c, started) + StopOf(w, d, started)
  {
    TwoStops(w, a, b, started);
    StopsAppend(w, [a, b], c, started);
    StopsAppend(w, [a, b, c], d, started);
    assert [a, b] + [c] == [a, b, c] && [a, b, c] + [d] == [a, b, c, d];
  }

  lemma Associate(t: seq<Event>, a: seq<Event>, b: seq<Event>, c: seq<Event>, d: seq<Event>, e: seq<Event>)
    ensures t + a + b + c + d + e == t + (a + b + c + d + e)
  {
  }

  // ----- the lifespan -----

  class Application {
    const world: World
    /** The calls made so far. */
    var trace: seq<Event>
    /** `shutdown_errors`. */
    var errors: seq<Failure>
    /** Whether the runtime objects are set on the application state. */
    var hasState: bool

    constructor (w: World)
      ensures world == w && trace == [] && errors == [] && !hasState
    {
      world, trace, errors, hasState := w, [], [], false;
    }

    /** The errors recorded are the failures of the calls made. */
    predicate Consistent() reads this { errors == Failures(world, trace) }

    /** Makes a call and records its failure, as every guarded shutdown step does. */
    method Record(e: Event)
      requires Consistent()
      modifies this`trace, this`errors
      ensures Consistent() && trace == old(trace) + [e]
    {
      FailuresAppend(world, trace, e);
      trace := trace + [e];
      errors := errors + FailureOf(world, e);
    }

    /** The startup loop. */
    method StartAll() returns (started: seq<Slot>, failure: Option<Failure>)
      modifies this`trace
      ensures started == StartOrder()[..FirstFailing(world, 0)]
      ensures failure == if |started| < 6 then world.StartFailure(StartOrder()[|started|]) else None
      ensures trace == old(trace) + StartEvents(started) + if |started| < 6
              then [StartFailed(StartOrder()[|started|])] else []
    {
      started, failure := [], None;
      var order := StartOrder();
      while |started| < |order|
        invariant |started| <= 6 && started == order[..|started|]
        invariant failure.None? && FirstFailing(world, 0) == FirstFailing(world, |started|)
        invariant trace == old(trace) + StartEvents(started)
        decreases 6 - |started|
      {
        var slot := order[|started|];
        failure := world.StartFailure(slot);
        if failure.Some? {
          trace := trace + [StartFailed(slot)];
          return;
        }
        trace := trace + [Started(slot)];
        assert StartEvents(started + [slot]) == StartEvents(started) + [Started(slot)];
        started := started + [slot];
      }
    }

    /** `_shutdown_scheduler_with_timeout`, for a dependency that was started. */
    method StopBounded(slot: Slot, started: set<Id>) returns (escaped: bool)
      requires Consistent()
      modifies this`trace, this`errors
      ensures trace == old(trace) + StopOf(world, slot, started)
      ensures escaped == Escapes(world, slot, started)
      ensures !escaped ==> Consistent()
    {
      escaped := false;
      if world.IdAt(slot) in started {
        if world.StopEnd(slot) == Raised(TimeoutError) {
          trace, escaped := trace + [Stopped(slot)], true;
        } else {
          Record(Stopped(slot));
        }
      }
    }

    /** `_shutdown_dependencies`. */
    method StopDependencies(slots: seq<Slot>, started: set<Id>)
      requires Consistent()
      modifies this`trace, this`errors
      ensures Consistent() && trace == old(trace) + Stops(world, slots, started)
    {
      var k := 0;
      while k < |slots|
        invariant k <= |slots|
        invariant Consistent() && trace == old(trace) + Stops(world, slots[..k], started)
      {
        StopsNext(world, slots, k, started, old(trace));
        if world.IdAt(slots[k]) in started { Record(Stopped(slots[k])); }
        k := k + 1;
      }
      assert slots[..k] == slots;
    }

    /** `_close_writer_queue`. */
    method CloseQueue(queue: bool)
      requires Consistent() && queue == HasQueue(world)
      modifies this`trace, this`errors
      ensures Consistent() && trace == old(trace) + Closing(world)
    {
      if queue { Record(QueueClosed); }
    }

    /** `_dispose_runtime`. */
    method DisposeRuntime(runtime: bool)
      requires Consistent() && runtime == HasRuntime(world)
      modifies this`trace, this`errors
      ensures Consistent() && trace == old(trace) + Disposal(world)
    {
      if runtime { Record(Disposed); }
    }

    /** `_shutdown_in_order`; a result is the error it raises. */
    method ShutdownInOrder(startedSlots: seq<Slot>, queue: bool, runtime: bool) returns (raised: Option<Failure>)
      requires queue == HasQueue(world) && runtime == HasRuntime(world)
      requires Failures(world, trace) == []
      modifies this`trace, this`errors
      ensures var ids := Identities(world, startedSlots);
              trace == old(trace) + Teardown(world, ids) &&
              raised == if Escapes(world, Bot, ids) || Escapes(world, Scheduler, ids) then Some(TimeoutError)
                        else First(Failures(world, trace))
    {
      var started := Identities(world, startedSlots);
      errors := [];
      var escaped := StopBounded(Bot, started);
      if escaped { return Some(TimeoutError); }
      escaped := StopBounded(Scheduler, started);
      if escaped { return Some(TimeoutError); }
      CloseQueue(queue);
      FourStops(world, Telethon, Auth, Settings, Db, started);
      StopDependencies([Telethon, Auth, Settings, Db], started);
      DisposeRuntime(runtime);
      Associate(old(trace), StopOf(world, Bot, started), StopOf(world, Scheduler, started),
                Closing(world), Clients(world, started), Disposal(world));
      raised := if |errors| > 0 then Some(errors[0]) else None;
    }

    /** The body of `lifespan`. */
    method Body() returns (started: seq<Slot>, failure: Option<Failure>)
      requires trace == []
      modifies this`trace, this`hasState
      ensures trace == Startup(world) && hasState == HasQueue(world)
      ensures started == StartedSlots(world) && failure == BodyFailure(world)
    {
      started, failure, hasState := [], world.runtime, false;
      if failure.Some? { return; }
      failure := world.queue;
      if failure.Some? { return; }
      hasState := true;
      started, failure := StartAll();
      if failure.Some? { return; }
      failure := world.cookieKey;
      if failure.Some? { return; }
      trace := trace + [Serving];
      failure := world.serving;
    }

    /** `lifespan`: the body, then the shutdown whose error replaces the body's. */
    method Lifespan() returns (raised: Option<Failure>)
      requires trace == []
      modifies this
      ensures trace == Trace(world)
      ensures raised == if TeardownFailure(world).Some? then TeardownFailure(world) else BodyFailure(world)
      ensures hasState == (HasQueue(world) && TeardownFailure(world).Some?)
    {
      var started, failure := Body();
      StartupEvents(world);
      NoFailures(world, trace);
      raised := ShutdownInOrder(started, world.runtime.None? && world.queue.None?, world.runtime.None?);
      if raised.None? {
        hasState := false;
        raised := failure;
      }
    }
  }

  // ----- what a lifespan promises -----

  function StartedIds(w: World): set<Id> { Identities(w, StartedSlots(w)) }

  function Trace(w: World): seq<Event> { Startup(w) + Teardown(w, StartedIds(w)) }

  predicate TimeoutEscapes(w: World) { Escapes(w, Bot, StartedIds(w)) || Escapes(w, Scheduler, StartedIds(w)) }

  /** What the shutdown raises. */
  function TeardownFailure(w: World): Option<Failure> {
    if TimeoutEscapes(w) then Some(TimeoutError) else First(Failures(w, Trace(w)))
  }

  predicate Distinct(w: World) { forall s: Slot, t: Slot | s != t :: w.IdAt(s) != w.IdAt(t) }

  function Reverse(slots: seq<Slot>): seq<Event> {
    if slots == [] then [] else Reverse(slots[1..]) + [Stopped(slots[0])]
  }

  /** The orderly shutdown of the dependencies started: last in, first out, with the queue closed
      between the two producers and the rest, and the storage disposed at the end. */
  function Orderly(w: World, started: seq<Slot>): seq<Event> {
    var k := if |started| < 4 then |started| else 4;
    Reverse(started[k..]) + Closing(w) + Reverse(started[..k]) + Disposal(w)
  }

  predicate IsStartup(e: Event) { e.Started? || e.StartFailed? || e.Serving? }

  lemma {:induction false} NoFailures(w: World, trace: seq<Event>)
    requires forall i | 0 <= i < |trace| :: IsStartup(trace[i])
    ensures Failures(w, trace) == []
  {
    if trace != [] {
      NoFailures(w, trace[..|trace| - 1]);
    }
  }

  lemma StartupEvents(w: World)
    ensures forall i | 0 <= i < |Startup(w)| :: IsStartup(Startup(w)[i])
  {
  }

  lemma IdentityIsSlot(w: World, started: seq<Slot>, s: Slot)
    requires Distinct(w)
    ensures w.IdAt(s) in Identities(w, started) <==> s in started
  {
    if w.IdAt(s) in Identities(w, started) {
      var t :| t in started && w.IdAt(t) == w.IdAt(s);
      assert s == t;
    }
  }

  lemma StartedPrefix(w: World, i: nat)
    requires Distinct(w) && i < 6
    ensures w.IdAt(StartOrder()[i]) in StartedIds(w) <==> i < |StartedSlots(w)|
  {
    var slots := StartedSlots(w);
    assert slots == StartOrder()[..|slots|];
    IdentityIsSlot(w, slots, StartOrder()[i]);
    if i < |slots| { assert slots[i] == StartOrder()[i]; }
  }

  /** Stopping backwards over `order`, of which the first `n` were started. */
  lemma {:induction false} StopsAreReverse(w: World, order: seq<Slot>, n: nat, started: set<Id>, back: seq<Slot>)
    requires n <= |order| == |back|
    requires forall i | 0 <= i < |order| :: back[i] == order[|order| - 1 - i]
    requires forall i | 0 <= i < |order| :: w.IdAt(order[i]) in started <==> i < n
    ensures Stops(w, back, started) == Reverse(order[..n])
  {
    if |order| > 0 {
      var m := |order| - 1;
      assert back[m] == order[0];
      StopsAreReverse(w, order[1..], if n == 0 then 0 else n - 1, started, back[..m]);
      if n > 0 { assert order[..n][1..] == order[1..][..n - 1]; }
    }
  }

  /** Both groups stop backwards over the dependencies started. */
  lemma ProducersAreReverse(w: World, n: nat)
    requires Distinct(w) && n == |StartedSlots(w)|
    ensures Producers(w, StartedIds(w)) == Reverse(StartOrder()[4..][..if n < 4 then 0 else n - 4])
  {
    var order := StartOrder();
    forall i: nat | i < 6 ensures w.IdAt(order[i]) in StartedIds(w) <==> i < n { StartedPrefix(w, i); }
    TwoStops(w, Bot, Scheduler, StartedIds(w));
    StopsAreReverse(w, order[4..], if n < 4 then 0 else n - 4, StartedIds(w), [Bot, Scheduler]);
  }

  lemma ClientsAreReverse(w: World, n: nat)
    requires Distinct(w) && n == |StartedSlots(w)|
    ensures Clients(w, StartedIds(w)) == Reverse(StartOrder()[..4][..if n < 4 then n else 4])
  {
    var order := StartOrder();
    forall i: nat | i < 6 ensures w.IdAt(order[i]) in StartedIds(w) <==> i < n { StartedPrefix(w, i); }
    FourStops(w, Telethon, Auth, Settings, Db, StartedIds(w));
    StopsAreReverse(w, order[..4], if n < 4 then n else 4, StartedIds(w), [Telethon, Auth, Settings, Db]);
  }

  lemma PrefixSplits(order: seq<Slot>, n: nat, k: nat)
    requires |order| == 6 && n <= 6 && k == if n < 4 then n else 4
    ensures order[..n][k..] == order[4..][..if n < 4 then 0 else n - 4]
    ensures order[..n][..k] == order[..4][..k]
  {
    if n < 4 {
      assert order[..n][k..] == [];
      assert order[4..][..0] == [];
    } else {
      var left, right := order[..n][4..], order[4..][..n - 4];
      assert |left| == |right| && forall i | 0 <= i < |left| :: left[i] == right[i];
    }
  }

  lemma OrderlyByGroup(w: World)
    requires Distinct(w)
    ensures Orderly(w, StartedSlots(w)) ==
            Producers(w, StartedIds(w)) + Closing(w) + Clients(w, StartedIds(w)) + Disposal(w)
  {
    var slots, order := StartedSlots(w), StartOrder();
    var n := |slots|;
    var k := if n < 4 then n else 4;
    ProducersAreReverse(w, n);
    ClientsAreReverse(w, n);
    assert slots == order[..n];
    PrefixSplits(order, n, k);
  }

  /** The queue is closed, and the storage disposed, exactly if it was there and no `TimeoutError` of
      a bounded hook escapes. */
  lemma ClosedExactly(w: World)
    ensures QueueClosed in Trace(w) <==> HasQueue(w) && !TimeoutEscapes(w)
    ensures Disposed in Trace(w) <==> HasRuntime(w) && !TimeoutEscapes(w)
  {
    StartupEvents(w);
  }

  /** With distinct hooks the calls of a lifespan are the startup followed by the orderly shutdown
      exactly if no started bounded hook raises `TimeoutError`. */
  lemma OrderlyExactly(w: World)
    requires Distinct(w)
    ensures Trace(w) == Startup(w) + Orderly(w, StartedSlots(w)) <==> !TimeoutEscapes(w)
  {
    OrderlyByGroup(w);
    if TimeoutEscapes(w) {
      ClosedExactly(w);
      assert Disposed in Orderly(w, StartedSlots(w));
    }
  }

  lemma TeardownStops(w: World, s: Slot)
    requires !TimeoutEscapes(w)
    ensures Stopped(s) in Teardown(w, StartedIds(w)) <==> w.IdAt(s) in StartedIds(w)
  {
    var p, c := Producers(w, StartedIds(w)), Clients(w, StartedIds(w));
    InGroups(w, s, StartedIds(w));
    InConcat(Stopped(s), p, Closing(w), c, Disposal(w));
  }

  lemma InGroups(w: World, s: Slot, started: set<Id>)
    ensures Stopped(s) in Producers(w, started) <==> s in {Bot, Scheduler} && w.IdAt(s) in started
    ensures Stopped(s) in Clients(w, started) <==> s !in {Bot, Scheduler} && w.IdAt(s) in started
  {
  }

  lemma InConcat(e: Event, a: seq<Event>, b: seq<Event>, c: seq<Event>, d: seq<Event>)
    ensures e in a + b + c + d <==> e in a || e in b || e in c || e in d
  {
  }

  /** Whatever objects the slots share: a slot is stopped exactly if its hook object was started in
      some slot. */
  lemma StoppedExactly(w: World, s: Slot)
    requires !TimeoutEscapes(w)
    ensures Stopped(s) in Trace(w) <==> exists t: Slot :: t in StartedSlots(w) && w.IdAt(t) == w.IdAt(s)
  {
    NoStopInStartup(w, s);
    TeardownStops(w, s);
    assert Stopped(s) in Trace(w) <==> Stopped(s) in Startup(w) || Stopped(s) in Teardown(w, StartedIds(w));
  }

  lemma NoStopInStartup(w: World, s: Slot)
    ensures Stopped(s) !in Startup(w)
  {
    StartupEvents(w);
  }

  /** The shutdown raises the first failure among its calls, except exactly when the scheduler's
      `TimeoutError` escapes after another failure of the bot was recorded. */
  lemma RaisesFirstExactly(w: World)
    ensures TeardownFailure(w) == First(Failures(w, Trace(w))) <==>
            !(Escapes(w, Scheduler, StartedIds(w)) && w.IdAt(Bot) in StartedIds(w) &&
              w.StopEnd(Bot).Raised? && w.StopEnd(Bot).failure.OtherError?)
  {
    var ids := StartedIds(w);
    if Escapes(w, Bot, ids) {
      FailuresAfterStartup(w, Bot);
    } else if Escapes(w, Scheduler, ids) {
      FailuresOfEscape(w);
    }
  }

  lemma FailuresOfEscape(w: World)
    requires Escapes(w, Scheduler, StartedIds(w)) && !Escapes(w, Bot, StartedIds(w))
    ensures Failures(w, Trace(w)) ==
            (if w.IdAt(Bot) in StartedIds(w) then FailureOf(w, Stopped(Bot)) else []) + [TimeoutError]
  {
    EscapeTrace(w);
    FailuresAfterStartup(w, Bot);
    FailuresAfterStartup(w, Scheduler);
    FailuresAppend(w, Startup(w) + [Stopped(Bot)], Stopped(Scheduler));
  }

  lemma EscapeTrace(w: World)
    requires Escapes(w, Scheduler, StartedIds(w)) && !Escapes(w, Bot, StartedIds(w))
    ensures Trace(w) == if w.IdAt(Bot) in StartedIds(w) then Startup(w) + [Stopped(Bot)] + [Stopped(Scheduler)]
                        else Startup(w) + [Stopped(Scheduler)]
  {
    assert Producers(w, StartedIds(w)) == StopOf(w, Bot, StartedIds(w)) + [Stopped(Scheduler)];
  }

  lemma FailuresAfterStartup(w: World, s: Slot)
    ensures Failures(w, Startup(w) + [Stopped(s)]) == FailureOf(w, Stopped(s))
  {
    StartupEvents(w);
    NoFailures(w, Startup(w));
    FailuresAppend(w, Startup(w), Stopped(s));
  }

  lemma {:induction false} FailuresConcat(w: World, a: seq<Event>, b: seq<Event>)
    ensures Failures(w, a + b) == Failures(w, a) + Failures(w, b)
  {
    if b == [] {
      assert a + b == a;
    } else {
      var rest, e := b[..|b| - 1], b[|b| - 1];
      SplitLast(a, b);
      FailuresConcat(w, a, rest);
      FailuresAppend(w, a + rest, e);
      FailuresAppend(w, rest, e);
      AddedLast(Failures(w, a), Failures(w, rest), FailureOf(w, e));
    }
  }

  lemma AddedLast(a: seq<Failure>, b: seq<Failure>, c: seq<Failure>)
    ensures (a + b) + c == a + (b + c)
  {
  }

  lemma SplitLast(a: seq<Event>, b: seq<Event>)
    requires b != []
    ensures a + b == (a + b[..|b| - 1]) + [b[|b| - 1]] && b == b[..|b| - 1] + [b[|b| - 1]]
  {
  }

  /** What stopping one dependency records. */
  function StopFailure(d: Dependency, started: set<Id>): seq<Failure> {
    if d.id in started && d.stop.Raised? then [d.stop.failure] else []
  }

  lemma StopRecords(w: World, s: Slot, started: set<Id>)
    ensures Failures(w, StopOf(w, s, started)) == StopFailure(w.At(s), started)
  {
    FailuresAppend(w, [], Stopped(s));
    assert [] + [Stopped(s)] == [Stopped(s)];
  }

  lemma ProducersRecord(w: World, started: set<Id>)
    ensures Failures(w, Producers(w, started)) == StopFailure(w.bot, started) + StopFailure(w.scheduler, started)
  {
    StopRecords(w, Bot, started);
    StopRecords(w, Scheduler, started);
    FailuresConcat(w, StopOf(w, Bot, started), StopOf(w, Scheduler, started));
  }

  lemma ClientsRecord(w: World, started: set<Id>)
    ensures Failures(w, Clients(w, started)) ==
            StopFailure(w.telethon, started) + StopFailure(w.auth, started) +
            StopFailure(w.settings, started) + StopFailure(w.db, started)
  {
    var a, b, c, d := StopOf(w, Telethon, started), StopOf(w, Auth, started), StopOf(w, Settings, started),
                      StopOf(w, Db, started);
    StopRecords(w, Telethon, started);
    StopRecords(w, Auth, started);
    StopRecords(w, Settings, started);
    StopRecords(w, Db, started);
    FailuresConcat(w, a, b);
    FailuresConcat(w, a + b, c);
    FailuresConcat(w, a + b + c, d);
  }

  function OptionalFailure(present: bool, failure: Option<Failure>): seq<Failure> {
    if present && failure.Some? then [failure.value] else []
  }

  lemma ReleaseRecords(w: World)
    ensures Failures(w, Closing(w)) == OptionalFailure(w.runtime.None? && w.queue.None?, w.closing)
    ensures Failures(w, Disposal(w)) == OptionalFailure(w.runtime.None?, w.disposal)
  {
    FailuresAppend(w, [], QueueClosed);
    FailuresAppend(w, [], Disposed);
    assert [] + [QueueClosed] == [QueueClosed] && [] + [Disposed] == [Disposed];
  }

  /** Without an escaping `TimeoutError` the errors recorded are those of the bot, the scheduler, the queue,
      the telethon manager, auth, settings, db and the storage, in that order, as far as they were started or
      present; and the first of them is what the shutdown raises. */
  lemma RecordsInOrder(w: World)
    requires !TimeoutEscapes(w)
    ensures var ids := StartedIds(w);
            var recorded := StopFailure(w.bot, ids) + StopFailure(w.scheduler, ids)
              + OptionalFailure(w.runtime.None? && w.queue.None?, w.closing)
              + (StopFailure(w.telethon, ids) + StopFailure(w.auth, ids) + StopFailure(w.settings,
                                                                                       ids) + StopFailure(w.db, ids))
              + OptionalFailure(w.runtime.None?, w.disposal);
            && Failures(w, Trace(w)) == recorded
            && TeardownFailure(w) == if recorded == [] then None else Some(recorded[0])
  {
    var ids := StartedIds(w);
    var p, c := Producers(w, ids), Clients(w, ids);
    StartupEvents(w);
    NoFailures(w, Startup(w));
    FailuresConcat(w, Startup(w), Teardown(w, ids));
    ProducersRecord(w, ids);
    ClientsRecord(w, ids);
    ReleaseRecords(w);
    FailuresConcat(w, p, Closing(w));
    FailuresConcat(w, p + Closing(w), c);
    FailuresConcat(w, p + Closing(w) + c, Disposal(w));
  }

  /** A bot hook that raises `TimeoutError` at shutdown leaves everything else running. */
  lemma TimeoutErrorSkipsTeardown() returns (w: World)
    ensures Distinct(w) && StartedSlots(w) == StartOrder() && HasQueue(w)
    ensures Trace(w) == Startup(w) + [Stopped(Bot)]
  {
    w := World(Sound(1), Sound(2), Sound(3), Sound(4), Sound(5), Dependency(Id(6), None, Raised(TimeoutError)),
               None, None, None, None, None, None);
    AllStart(w);
    assert Bot in StartedSlots(w) by { assert StartOrder()[5] == Bot; }
  }

  lemma AllStart(w: World)
    requires HasQueue(w) && forall s: Slot :: w.StartFailure(s).None?
    ensures StartedSlots(w) == StartOrder()
  {
    assert FirstFailing(w, 0) == 6;
  }

  function Sound(n: int): Dependency { Dependency(Id(n), None, Returned) }
}
