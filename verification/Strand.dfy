/** The strand: handlers posted from any thread are run one at a time by whichever pool worker
    finds the strand idle. Pushing and popping the handler queue are atomic here and a push
    always has room; the counter accesses of `invokeCall` are separate, interleaved steps. */
module Strand {

  /** A pool worker inside `invokeCall`. */
  datatype Worker<H> =
    | Idle
    | Entering        // invocation taken from the pool, counter not yet incremented
    | Popping         // about to pop the handler queue
    | Calling(h: H)   // a handler is running
    | Leaving         // handler finished, counter not yet decremented
    | Asserted        // the queue was empty: `assert(res)` failed

  /** `queue`, `deferred` and `workers` are the strand; `posting` counts posters between the push
      and the pool submission, `pending` the invocations waiting in the pool. `posted` and
      `executed` are history, `entered` and `left` count the counter's increments and decrements. */
  datatype State<H> = State(
    queue: seq<H>, deferred: nat, workers: seq<Worker<H>>, posting: nat, pending: nat,
    posted: seq<H>, executed: seq<H>, entered: nat, left: nat)

  datatype Event<H> =
    | Push(h: H)          // `m_queue.push(handler)`
    | Submit              // `m_thread_pool.post(...)`
    | Take(worker: nat)   // an idle worker takes an invocation
    | Advance(worker: nat)

  predicate Enabled<H>(s: State<H>, e: Event<H>) {
    match e
    case Push(_) => true
    case Submit => s.posting > 0
    case Take(w) => w < |s.workers| && s.workers[w].Idle? && s.pending > 0
    case Advance(w) => w < |s.workers| && !s.workers[w].Idle? && !s.workers[w].Asserted? &&
                       (s.workers[w].Leaving? ==> s.deferred > 0)
  }

  function Set<H>(s: State<H>, w: nat, k: Worker<H>): State<H>
    requires w < |s.workers|
  {
    s.(workers := s.workers[w := k])
  }

  function Step<H>(s: State<H>, e: Event<H>): State<H>
    requires Enabled(s, e)
  {
    match e
    case Push(h) => s.(queue := s.queue + [h], posted := s.posted + [h], posting := s.posting + 1)
    case Submit => s.(posting := s.posting - 1, pending := s.pending + 1)
    case Take(w) => Set(s, w, Entering).(pending := s.pending - 1)
    case Advance(w) =>
      match s.workers[w]
      case Entering =>
        Set(s, w, if s.deferred != 0 then Idle else Popping).(deferred := s.deferred + 1, entered := s.entered + 1)
      case Popping =>
        if s.queue == [] then Set(s, w, Asserted) else Set(s, w, Calling(s.queue[0])).(queue := s.queue[1..])
      case Calling(h) => Set(s, w, Leaving).(executed := s.executed + [h])
      case Leaving =>
        Set(s, w, if s.deferred > 1 then Popping else Idle).(deferred := s.deferred - 1, left := s.left + 1)
      case _ => s
  }

  function Init<H>(workers: nat): State<H> {
    State([], 0, seq(workers, _ => Idle), 0, 0, [], [], 0, 0)
  }

  predicate Active<H>(k: Worker<H>) {
    k.Popping? || k.Calling? || k.Leaving?
  }

  function CountEntering<H>(workers: seq<Worker<H>>): nat {
    if workers == [] then 0
    else CountEntering(workers[..|workers| - 1]) + if workers[|workers| - 1].Entering? then 1 else 0
  }

  lemma {:induction false} CountEnteringUpdate<H>(workers: seq<Worker<H>>, w: nat, k: Worker<H>)
    requires w < |workers|
    ensures CountEntering(workers[w := k]) ==
            CountEntering(workers) - (if workers[w].Entering? then 1 else 0) + (if k.Entering? then 1 else 0)
  {
    var n := |workers| - 1;
    if w < n {
      CountEnteringUpdate(workers[..n], w, k);
      assert workers[w := k][..n] == workers[..n][w := k];
    } else {
      assert workers[w := k][..n] == workers[..n];
    }
  }

  /** Handlers finished, then the one in hand, then the queue: exactly what was posted, in order. */
  ghost predicate InOrder<H>(s: State<H>, k: Worker<H>) {
    && s.executed + (if k.Calling? then [k.h] else []) + s.queue == s.posted
    && |s.executed| == s.left + if k.Leaving? then 1 else 0
  }

  ghost predicate Counted<H>(s: State<H>) {
    && s.entered == s.left + s.deferred
    && |s.posted| == s.posting + s.pending + CountEntering(s.workers) + s.entered
  }

  /** With a non-zero counter exactly one worker, `r`, is past the gate; otherwise none is. */
  ghost predicate Gate<H>(s: State<H>, r: nat) {
    if s.deferred == 0 then
      && (forall w :: 0 <= w < |s.workers| ==> s.workers[w].Idle? || s.workers[w].Entering?)
      && InOrder(s, Idle)
    else
      && r < |s.workers| && Active(s.workers[r])
      && (forall w :: 0 <= w < |s.workers| && w != r ==> s.workers[w].Idle? || s.workers[w].Entering?)
      && InOrder(s, s.workers[r])
  }

  ghost predicate Inv<H>(s: State<H>) {
    Counted(s) && exists r: nat :: Gate(s, r)
  }

  lemma CountedStep<H>(s: State<H>, e: Event<H>)
    requires Counted(s) && Enabled(s, e)
    ensures Counted(Step(s, e))
  {
    if e.Take? || e.Advance? {
      CountEnteringUpdate(s.workers, e.worker, Step(s, e).workers[e.worker]);
    }
  }

  /** The runner's pop finds a handler: every invocation behind the counter posted one. */
  lemma PopSucceeds<H>(s: State<H>, r: nat)
    requires Counted(s) && Gate(s, r) && s.deferred > 0 && s.workers[r].Popping?
    ensures s.queue != []
  {
    assert |s.executed + s.queue| == |s.posted|;
  }

  lemma RunnerStep<H>(s: State<H>, r: nat)
    requires Counted(s) && Gate(s, r) && s.deferred > 0
    ensures Enabled(s, Advance(r)) && Gate(Step(s, Advance(r)), r)
  {
    var s' := Step(s, Advance(r));
    if s.workers[r].Popping? {
      PopSucceeds(s, r);
      assert s.executed + [s.queue[0]] + s.queue[1..] == s.executed + s.queue;
    }
  }

  lemma StepInv<H>(s: State<H>, e: Event<H>)
    requires Inv(s) && Enabled(s, e)
    ensures Inv(Step(s, e))
  {
    CountedStep(s, e);
    var r: nat :| Gate(s, r);
    var s' := Step(s, e);
    match e
    case Push(h) =>
      var k := if s.deferred == 0 then Idle else s.workers[r];
      var hand := if k.Calling? then [k.h] else [];
      assert s.executed + hand + (s.queue + [h]) == (s.executed + hand + s.queue) + [h];
      assert Gate(s', r);
    case Submit => assert Gate(s', r);
    case Take(w) => assert Gate(s', r);
    case Advance(w) =>
      if s.deferred > 0 && w == r {
        RunnerStep(s, r);
      } else if s.deferred == 0 {
        assert Gate(s', w);
      } else {
        assert Gate(s', r);
      }
  }

  /** The state after any sequence of events; events that cannot happen are skipped. */
  ghost function Run<H>(s: State<H>, events: seq<Event<H>>): (r: State<H>)
    requires Inv(s)
    ensures Inv(r)
  {
    if events == [] then s
    else
      var before := Run(s, events[..|events| - 1]);
      var e := events[|events| - 1];
      if Enabled(before, e) then StepInv(before, e); Step(before, e) else before
  }

  predicate Quiet<H>(s: State<H>) {
    && s.posting == 0 && s.pending == 0
    && forall w :: 0 <= w < |s.workers| ==> s.workers[w].Idle?
  }

  lemma {:induction false} NoneEntering<H>(workers: seq<Worker<H>>)
    requires forall w :: 0 <= w < |workers| ==> !workers[w].Entering?
    ensures CountEntering(workers) == 0
  {
    if workers != [] { NoneEntering(workers[..|workers| - 1]); }
  }

  lemma InitInv<H>(workers: nat)
    ensures Inv(Init<H>(workers))
  {
    NoneEntering(Init<H>(workers).workers);
    assert Gate(Init<H>(workers), 0);
  }

  ghost predicate Serial<H>(s: State<H>) {
    && (forall w, u :: (0 <= w < |s.workers| && 0 <= u < |s.workers| && Active(s.workers[w]) &&
                        Active(s.workers[u])) ==> w == u)
    && (forall w :: 0 <= w < |s.workers| ==> !s.workers[w].Asserted?)
    && s.executed <= s.posted
    && (Quiet(s) ==> s.executed == s.posted && s.queue == [] && s.deferred == 0)
  }

  lemma InvIsSerial<H>(s: State<H>)
    requires Inv(s)
    ensures Serial(s)
  {
    var r: nat :| Gate(s, r);
    var k := if s.deferred == 0 then Idle else s.workers[r];
    var hand := if k.Calling? then [k.h] else [];
    assert s.posted == s.executed + (hand + s.queue);
    if Quiet(s) {
      NoneEntering(s.workers);
      assert |s.executed + hand + s.queue| == |s.posted|;
    }
  }

  /** In every interleaving: at most one worker runs a handler, no pop fails, handlers finish in the
      order they were pushed, and once the pool is quiet each posted handler has run exactly once. */
  lemma Serialised<H>(workers: nat, events: seq<Event<H>>)
    ensures Inv(Init<H>(workers))
    ensures Serial(Run(Init<H>(workers), events))
  {
    InitInv<H>(workers);
    InvIsSerial(Run(Init<H>(workers), events));
  }

  // ----- the strand drains -----

  /** What a worker still has to do beyond the deferred calls, in steps. */
  function Weight<H>(k: Worker<H>): int {
    match k
    case Entering => 4
    case Calling(_) => -1
    case Leaving => -2
    case _ => 0
  }

  function Weights<H>(workers: seq<Worker<H>>): int {
    if workers == [] then 0 else Weights(workers[..|workers| - 1]) + Weight(workers[|workers| - 1])
  }

  lemma {:induction false} WeightsUpdate<H>(workers: seq<Worker<H>>, w: nat, k: Worker<H>)
    requires w < |workers|
    ensures Weights(workers[w := k]) == Weights(workers) - Weight(workers[w]) + Weight(k)
  {
    var n := |workers| - 1;
    if w < n {
      WeightsUpdate(workers[..n], w, k);
      assert workers[w := k][..n] == workers[..n][w := k];
    } else {
      assert workers[w := k][..n] == workers[..n];
    }
  }

  lemma {:induction false} WeightsPositive<H>(workers: seq<Worker<H>>)
    requires forall w :: 0 <= w < |workers| ==> workers[w].Idle? || workers[w].Entering?
    ensures Weights(workers) >= 0
    ensures Weights(workers) == 0 <==> forall w :: 0 <= w < |workers| ==> workers[w].Idle?
  {
    if workers != [] { WeightsPositive(workers[..|workers| - 1]); }
  }

  /** The steps left until the strand is quiet: submitting, taking and entering each invocation, and
      popping, calling and leaving for each handler. */
  function StepsLeft<H>(s: State<H>): int {
    6 * s.posting + 5 * s.pending + 3 * s.deferred + Weights(s.workers)
  }

  /** Every step but a push brings quiescence one step nearer. */
  lemma OneStepNearer<H>(s: State<H>, e: Event<H>)
    requires Inv(s) && Enabled(s, e) && !e.Push?
    ensures StepsLeft(Step(s, e)) == StepsLeft(s) - 1
  {
    if e.Take? || e.Advance? {
      WeightsUpdate(s.workers, e.worker, Step(s, e).workers[e.worker]);
    }
    if e.Advance? && s.workers[e.worker].Popping? {
      var r: nat :| Gate(s, r);
      PopSucceeds(s, r);
    }
  }

  /** No steps are left exactly when the strand is quiet. */
  lemma QuietIff<H>(s: State<H>)
    requires Inv(s)
    ensures StepsLeft(s) >= 0 && (StepsLeft(s) == 0 <==> Quiet(s))
  {
    var r: nat :| Gate(s, r);
    if s.deferred == 0 {
      WeightsPositive(s.workers);
    } else {
      WeightsUpdate(s.workers, r, Idle);
      WeightsPositive(s.workers[r := Idle]);
    }
  }

  /** Until then some step is possible, if there is a worker at all. */
  lemma NeverStuck<H>(s: State<H>)
    requires Inv(s) && |s.workers| > 0 && !Quiet(s)
    ensures exists e :: Enabled(s, e) && !e.Push?
  {
    var r: nat :| Gate(s, r);
    if s.posting > 0 {
      assert Enabled(s, Submit);
    } else if w :| 0 <= w < |s.workers| && !s.workers[w].Idle? {
      assert Enabled(s, Advance(w));
    } else {
      assert Enabled(s, Take(0));
    }
  }

  /** A run in which every event is possible and none is a push. */
  ghost predicate Draining<H>(s: State<H>, events: seq<Event<H>>)
    requires Inv(s)
  {
    forall k :: 0 <= k < |events| ==> !events[k].Push? && Enabled(Run(s, events[..k]), events[k])
  }

  lemma DrainingInit<H>(s: State<H>, events: seq<Event<H>>)
    requires Inv(s) && Draining(s, events) && events != []
    ensures var k := |events| - 1;
            Draining(s, events[..k]) && !events[k].Push? && Enabled(Run(s, events[..k]), events[k])
  {
    hide Inv;
    hide Run;
    var init := events[..|events| - 1];
    forall j | 0 <= j < |init| ensures !init[j].Push? && Enabled(Run(s, init[..j]), init[j]) {
      assert init[..j] == events[..j];
    }
  }

  lemma StepPosted<H>(s: State<H>, e: Event<H>)
    requires Enabled(s, e) && !e.Push?
    ensures Step(s, e).posted == s.posted
  {
  }

  lemma {:induction false} DrainSteps<H>(s: State<H>, events: seq<Event<H>>)
    requires Inv(s) && Draining(s, events)
    ensures StepsLeft(Run(s, events)) == StepsLeft(s) - |events| && Run(s, events).posted == s.posted
  {
    hide Inv;
    hide Draining;
    hide Enabled;
    hide Step;
    hide StepsLeft;
    if events != [] {
      DrainingInit(s, events);
      var before, e := Run(s, events[..|events| - 1]), events[|events| - 1];
      DrainSteps(s, events[..|events| - 1]);
      OneStepNearer(before, e);
      StepPosted(before, e);
    }
  }

  /** From every reachable state, with no further posts, any steps that are possible lead in exactly
      `StepsLeft` steps to quiescence, where every posted handler has run exactly once, in order. */
  lemma Drains<H>(s: State<H>, events: seq<Event<H>>)
    requires Inv(s) && Draining(s, events)
    ensures |events| <= StepsLeft(s)
    ensures |events| == StepsLeft(s) <==> Quiet(Run(s, events))
    ensures |events| == StepsLeft(s) ==> Run(s, events).executed == s.posted
  {
    DrainSteps(s, events);
    QuietIff(Run(s, events));
    InvIsSerial(Run(s, events));
    hide Inv;
    hide Run;
    hide StepsLeft;
    hide Quiet;
  }
}
