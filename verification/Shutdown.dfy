/** When the server may stop: the manager's counters and the upstream side's `busy` together. */
module Shutdown {
  import O = Options
  import opened Dispatch
  import opened TaskEngine
  import opened TaskRuns
  import opened Rendezvous
  import EL = ExpiringList
  import U = Upstream

  /** The event hands a task to the upstream side. */
  predicate Sends(p: Setup, e: Engine, ev: Event) {
    Concludes(p, e, ev, Forward)
  }

  /** In the event the upstream side is done with a task. */
  predicate Completes(ev: Event) {
    ev.UpstreamFailure? || (ev.Dispatched? && ev.start.Answer?)
  }

  lemma DisposedUpstream(p: Setup, e: Engine, e': Engine, u: Uuid, action: Action, next: O.Option<Uuid>, at: Clock)
    requires Disposed(p, e, e', u, action, next, at)
    ensures e'.upstream == e.upstream + if action == RunForward then [u] else []
  {
    hide Answered;
    hide Met;
    if action == RunPostpone {
      var found :| Met(e, e', u, found, at, p.timeout);
      MetPasses(e, e', u, found, at, p.timeout);
    } else if action == RunOk {
      AnsweredPasses(e, e', u, next, at.look, p.life);
    }
  }

  /** Tasks come to the upstream side and leave it with these events only, one at a time. */
  lemma EventUpstream(p: Setup, e: Engine, e': Engine, ev: Event)
    requires Happens(p, e, e', ev)
    ensures |e'.upstream| == |e.upstream| - (if Completes(ev) then 1 else 0) + if Sends(p, e, ev) then 1 else 0
  {
    if ev.Dispatched? {
      var s := ev.start;
      assert |Entered(e, s).upstream| == |e.upstream| - if Completes(ev) then 1 else 0;
      hide Entered;
      hide Subject;
      hide Legal;
      hide Outcome;
      hide Disposed;
      ConcludesIff(p, e, ev);
      hide Concludes;
      var e1, u := Entered(e, s), Subject(e, s);
      var r := Outcome(p, e1, u, s, ev.x);
      DisposedUpstream(p, SetStatus(e1, u, r.status), e', u, Last(r), ev.next, ev.at);
    }
  }

  /** If the upstream side counts one task more for every forwarding event and one less for every
      completion, as `Send` and `OnDone` do, it always counts the manager's tasks upstream. */
  lemma {:induction false} PendingMatches(p: Setup, log: Log, pending: seq<int>, k: nat)
    requires IsRun(p, log) && |pending| == |log.states| && pending[0] == |log.states[0].upstream| && k <= |log.events|
    requires forall j :: 0 <= j < |log.events| ==>
               pending[j + 1] == pending[j] - (if Completes(log.events[j]) then 1 else 0)
                                 + if Sends(p, log.states[j], log.events[j]) then 1 else 0
    ensures pending[k] == |log.states[k].upstream|
  {
    hide Happens;
    hide Sends;
    if k > 0 {
      PendingMatches(p, log, pending, k - 1);
      EventUpstream(p, log.states[k - 1], log.states[k], log.events[k - 1]);
    }
  }

  /** `canStop`, with the sender counters of the upstream side: it holds if and only if no client task is
      live and nothing is in the pool, in the result queue, in flight upstream or waiting for a connection. */
  lemma CanStopIff(e: Engine, capacity: nat, upstream: U.UpstreamManager)
    requires Inv(e, capacity, {}) && upstream.Valid() && upstream.finishing == O.None &&
               |e.upstream| == upstream.Pending()
    ensures e.cntBaseTask == e.cntBaseTaskDone && !upstream.Busy() && e.cntJobSent == e.cntJobDone <==>
            && e.pool == [] && e.results == [] && (forall u :: u in e.tasks ==> e.tasks[u].kind == Periodic)
            && e.upstream == [] && upstream.outstanding == map[]
            && (forall i :: i in upstream.all ==> i.taskQueue == [])
  {
    upstream.BusyIffPending();
    StopIsSafe(e, capacity);
    hide Inv;
  }
}
