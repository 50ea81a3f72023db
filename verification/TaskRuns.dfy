/** The events of the task manager as a relation on its state, and what holds over every run of them:
    the invariant, and the meeting of a postponed task with the callback that names it. */
module TaskRuns {
  import O = Options
  import opened Dispatch
  import opened TaskEngine
  import EL = ExpiringList

  /** How a task gets into the dispatcher's hand. */
  datatype Start =
    | NewClient(u: Uuid, h: Handlers, data: Input)
    | Timer(i: nat)
    | Answer(i: nat, data: Input)     // from upstream
    | JobResult                       // the first of the result queue
    | Resumption                      // the first of the resume queue

  /** A dispatch with what the handlers return, the uuid the task is a callback for and the clock
      readings; and the events that dispatch nothing. */
  datatype Event =
    | Dispatched(start: Start, x: Script, next: O.Option<Uuid>, at: Clock)
    | NewPeriodic(u: Uuid, h: Handlers, data: Input)
    | UpstreamFailure(i: nat)
    | WorkerDone(i: nat, status: Status)
    | Expiry(k: nat, now: Time)

  predicate CanStart(e: Engine, s: Start) {
    match s
    case NewClient(u, h, _) => u !in e.tasks && HasAction(h)
    case Timer(i) => i < |e.timers|
    case Answer(i, _) => i < |e.upstream|
    case JobResult => e.results != []
    case Resumption => e.ready != []
  }

  function Subject(e: Engine, s: Start): Uuid
    requires CanStart(e, s)
  {
    match s
    case NewClient(u, _, _) => u
    case Timer(i) => e.timers[i]
    case Answer(i, _) => e.upstream[i]
    case JobResult => e.results[0]
    case Resumption => e.ready[0]
  }

  /** The state in which the dispatch begins, with the subject in hand. */
  function Entered(e: Engine, s: Start): Engine
    requires CanStart(e, s)
  {
    match s
    case NewClient(u, h, data) => Admit(e, u, h, data)
    case Timer(i) => SetStatus(TakeTimer(e, i), e.timers[i], None)
    case Answer(i, data) => SetInput(TakeUpstream(e, i), e.upstream[i], data)
    case JobResult => TakeResult(e)
    case Resumption => TakeReady(e)
  }

  predicate Full(p: Setup, e: Engine) {
    e.cntJobSent - e.cntJobDone == p.capacity
  }

  /** The handler statuses let the dispatch reach EXIT: the exact conditions of `ExecutedIff` and
      `ReturnedIff`. */
  predicate Legal(p: Setup, e: Engine, u: Uuid, s: Start, x: Script) {
    && x.post != Again && u in e.tasks && u in e.status
    && if s.JobResult?
       then e.tasks[u].h.worker && (e.status[u] == Again || Answers(Settled(e.tasks[u].h, e.status[u], x)))
       else e.status[u] in {None, Ok, Forward, Postpone} && ExecuteLegal(e.tasks[u].h, e.status[u], Full(p, e), x)
  }

  /** What the state machine makes of it. */
  function Outcome(p: Setup, e: Engine, u: Uuid, s: Start, x: Script): Result
    requires Legal(p, e, u, s, x)
  {
    if s.JobResult? then JobReturned(e.tasks[u].h, e.status[u], x)
    else Executed(e.tasks[u].h, e.status[u], Full(p, e), x)
  }

  /** From the state with the task in hand to the state after its disposal. */
  ghost predicate Dispatches(p: Setup, e: Engine, e': Engine, u: Uuid, s: Start, x: Script, next: O.Option<Uuid>,
                             at: Clock) {
    && Legal(p, e, u, s, x)
    && var r := Outcome(p, e, u, s, x);
       Disposed(p, SetStatus(e, u, r.status), e', u, Last(r), next, at)
  }

  /** The heap's top is an entry with the latest deadline; it expires when that is past. */
  ghost predicate TopExpires(e: Engine, k: nat, now: Time) {
    && k < |e.expire| && e.expire[k].0 < now
    && forall j :: 0 <= j < |e.expire| ==> e.expire[j].0 <= e.expire[k].0
  }

  ghost predicate Happens(p: Setup, e: Engine, e': Engine, ev: Event) {
    match ev
    case Dispatched(s, x, next, at) => CanStart(e, s) && Dispatches(p, Entered(e, s), e', Subject(e, s), s, x, next, at)
    case NewPeriodic(u, h, data) => u !in e.tasks && HasAction(h) && e' == Schedule(e, u, h, data)
    case UpstreamFailure(i) =>
      && i < |e.upstream| && e.upstream[i] in e.tasks
      && e' == Die(SetStatus(TakeUpstream(e, i), e.upstream[i], Error), e.upstream[i])
    case WorkerDone(i, status) => i < |e.pool| && e' == Finish(e, i, status)
    case Expiry(k, now) =>
      && TopExpires(e, k, now) && (e.expire[k].1 in e.postponed ==> e.expire[k].1 in e.tasks)
      && e' == ExpireTop(e, k)
  }

  // ----- every event keeps the invariant -----

  lemma EnterKeeps(p: Setup, e: Engine, s: Start)
    requires Inv(e, p.capacity, {}) && CanStart(e, s)
    ensures Inv(Entered(e, s), p.capacity, {Subject(e, s)})
    ensures var u, e1 := Subject(e, s), Entered(e, s);
            && u in e1.tasks && u in e1.status && u in e1.input
            && if s.JobResult? then e1.tasks[u].h.worker && e1.cntJobSent - e1.cntJobDone < p.capacity
               else e1.status[u] in {None, Forward, Postpone}
  {
    hide Inv;
    match s {
      case NewClient(u, h, data) => AdmitKeeps(e, p.capacity, u, h, data);
      case Timer(i) =>
        TakeTimerKeeps(e, p.capacity, i);
        SetStatusKeeps(TakeTimer(e, i), p.capacity, e.timers[i], None);
      case Answer(i, data) =>
        TakeUpstreamKeeps(e, p.capacity, i);
        SetInputKeeps(TakeUpstream(e, i), p.capacity, e.upstream[i], data, {e.upstream[i]});
      case JobResult => TakeResultKeeps(e, p.capacity);
      case Resumption => TakeReadyKeeps(e, p.capacity);
    }
    InHand(Entered(e, s), p.capacity, Subject(e, s));
  }

  lemma ExecuteEnds(p: Setup, e: Engine, u: Uuid, s: Start, x: Script)
    requires !s.JobResult? && Legal(p, e, u, s, x) && 0 <= e.cntJobSent - e.cntJobDone <= p.capacity
    ensures var r := Outcome(p, e, u, s, x);
            && r.Finished? && Tells(e.tasks[u].h, Full(p, e), r)
            && (Last(r) == RunWorker ==> e.tasks[u].h.worker && e.cntJobSent - e.cntJobDone < p.capacity)
  {
    var h, full := e.tasks[u].h, Full(p, e);
    ExecutedIff(h, e.status[u], full, x);
    TellsExecuted(h, e.status[u], full, x);
    hide Executed;
    hide ExecuteLegal;
  }

  lemma ReturnEnds(p: Setup, e: Engine, u: Uuid, s: Start, x: Script)
    requires s.JobResult? && Legal(p, e, u, s, x) && e.cntJobSent - e.cntJobDone < p.capacity
    ensures var r := Outcome(p, e, u, s, x);
            && r.Finished? && Tells(e.tasks[u].h, false, r)
            && (Last(r) == RunWorker ==> e.tasks[u].h.worker && e.cntJobSent - e.cntJobDone < p.capacity)
  {
    ReturnedIff(e.tasks[u].h, e.status[u], x);
    TellsReturned(e.tasks[u].h, e.status[u], false, x);
    hide JobReturned;
  }

  /** A legal dispatch runs to EXIT, and its last action fits the task and the pool: in particular a
      job is only posted, or posted again, while the pool has room. */
  lemma DispatchFits(p: Setup, e: Engine, u: Uuid, s: Start, x: Script)
    requires Inv(e, p.capacity, {u}) && Legal(p, e, u, s, x)
    requires s.JobResult? ==> e.cntJobSent - e.cntJobDone < p.capacity
    ensures var r := Outcome(p, e, u, s, x);
            && r.Finished? && r.trace != []
            && Inv(SetStatus(e, u, r.status), p.capacity, {u})
            && Fits(SetStatus(e, u, r.status), p.capacity, u, Last(r))
  {
    Room(e, p.capacity, {u});
    hide Inv;
    if s.JobResult? {
      ReturnEnds(p, e, u, s, x);
    } else {
      ExecuteEnds(p, e, u, s, x);
    }
    hide Outcome;
    hide Legal;
    InHand(e, p.capacity, u);
    SetStatusKeeps(e, p.capacity, u, Outcome(p, e, u, s, x).status);
  }

  /** The last action of a legal dispatch goes with its final status. */
  lemma OutcomeSuits(p: Setup, e: Engine, u: Uuid, s: Start, x: Script)
    requires Legal(p, e, u, s, x)
    ensures var r := Outcome(p, e, u, s, x);
            r.Finished? && (Last(r) == RunWorker || Last(r) == CheckOverflow || Suits(Last(r), r.status))
  {
    var h := e.tasks[u].h;
    if s.JobResult? {
      ReturnedIff(h, e.status[u], x);
      ReturnedMeans(h, e.status[u], x);
    } else {
      ExecutedIff(h, e.status[u], Full(p, e), x);
      ExecutedMeans(h, e.status[u], Full(p, e), x);
    }
    hide Executed;
    hide JobReturned;
    hide ExecuteLegal;
    hide Suits;
  }

  lemma DispatchKeeps(p: Setup, e: Engine, e': Engine, s: Start, x: Script, next: O.Option<Uuid>, at: Clock)
    requires Inv(e, p.capacity, {}) && CanStart(e, s)
    requires Dispatches(p, Entered(e, s), e', Subject(e, s), s, x, next, at)
    ensures Inv(e', p.capacity, {})
  {
    hide Inv;
    hide Legal;
    hide Outcome;
    hide Disposed;
    hide Fits;
    EnterKeeps(p, e, s);
    var e1, u := Entered(e, s), Subject(e, s);
    DispatchFits(p, e1, u, s, x);
    var r := Outcome(p, e1, u, s, x);
    DisposedKeeps(p, SetStatus(e1, u, r.status), e', u, Last(r), next, at);
  }

  lemma FailureKeeps(e: Engine, capacity: nat, i: nat)
    requires Inv(e, capacity, {}) && i < |e.upstream|
    ensures var u := e.upstream[i];
            u in e.tasks && u in e.status && Inv(Die(SetStatus(TakeUpstream(e, i), u, Error), u), capacity, {})
  {
    hide Inv;
    hide Die;
    var u := e.upstream[i];
    TakeUpstreamKeeps(e, capacity, i);
    var d := SetStatus(TakeUpstream(e, i), u, Error);
    SetStatusKeeps(TakeUpstream(e, i), capacity, u, Error);
    InHand(d, capacity, u);
    assert {u} - d.postponed == {u};
    DieKeeps(d, capacity, u);
  }

  lemma EventKeeps(p: Setup, e: Engine, e': Engine, ev: Event)
    requires Inv(e, p.capacity, {}) && Happens(p, e, e', ev)
    ensures Inv(e', p.capacity, {})
  {
    hide Inv;
    hide Dispatches;
    hide Die;
    hide ExpireTop;
    match ev
    case Dispatched(s, x, next, at) => DispatchKeeps(p, e, e', s, x, next, at);
    case NewPeriodic(u, h, data) => ScheduleKeeps(e, p.capacity, u, h, data);
    case UpstreamFailure(i) => FailureKeeps(e, p.capacity, i);
    case WorkerDone(i, status) => FinishKeeps(e, p.capacity, i, status);
    case Expiry(k, now) => ExpireTopKeeps(e, p.capacity, k);
  }

  // ----- what an event changes -----

  lemma AnsweredCounts(e: Engine, e': Engine, u: Uuid, next: O.Option<Uuid>, now: Time, life: nat)
    requires Answered(e, e', u, next, now, life)
    ensures e'.cntBaseTask == e.cntBaseTask && e'.pool == e.pool && e'.results == e.results &&
              e'.cntJobDone == e.cntJobDone
  {
    hide EL.Chopped;
  }

  lemma DisposedCounts(p: Setup, e: Engine, e': Engine, u: Uuid, action: Action, next: O.Option<Uuid>, at: Clock)
    requires Disposed(p, e, e', u, action, next, at)
    ensures e'.cntBaseTask == e.cntBaseTask && e'.cntJobDone == e.cntJobDone && e'.results == e.results
    ensures e'.pool == e.pool || e'.pool == e.pool + [u]
  {
    hide Answered;
    hide Taken;
    if action == RunOk { AnsweredCounts(e, e', u, next, at.look, p.life); }
  }

  /** Only a new client is counted as one, only a result taken is counted as done, and jobs enter the
      pool at the end and leave it as a worker finishes. */
  lemma EventCounts(p: Setup, e: Engine, e': Engine, ev: Event)
    requires Happens(p, e, e', ev)
    ensures e'.cntBaseTask == e.cntBaseTask + if ev.Dispatched? && ev.start.NewClient? then 1 else 0
    ensures var result := ev.Dispatched? && ev.start.JobResult?;
            && e'.cntJobDone == e.cntJobDone + (if result then 1 else 0)
            && (result ==> e.results != [] && e'.results == e.results[1..])
            && (!result && !ev.WorkerDone? ==> e'.results == e.results)
    ensures !ev.WorkerDone? ==> e.pool <= e'.pool
  {
    hide Dispatches;
    if ev.Dispatched? {
      DispatchCounts(p, Entered(e, ev.start), e', Subject(e, ev.start), ev.start, ev.x, ev.next, ev.at);
    } else {
      IdleCounts(p, e, e', ev);
      hide Happens;
    }
  }

  lemma IdleCounts(p: Setup, e: Engine, e': Engine, ev: Event)
    requires Happens(p, e, e', ev) && !ev.Dispatched?
    ensures e'.cntBaseTask == e.cntBaseTask && e'.cntJobDone == e.cntJobDone
    ensures !ev.WorkerDone? ==> e'.results == e.results && e'.pool == e.pool
  {
  }

  lemma DispatchCounts(p: Setup, e: Engine, e': Engine, u: Uuid, s: Start, x: Script, next: O.Option<Uuid>, at: Clock)
    requires Dispatches(p, e, e', u, s, x, next, at)
    ensures e'.cntBaseTask == e.cntBaseTask && e'.cntJobDone == e.cntJobDone && e'.results == e.results
    ensures e.pool <= e'.pool
  {
    hide Legal;
    hide Outcome;
    hide Disposed;
    var r := Outcome(p, e, u, s, x);
    DisposedCounts(p, SetStatus(e, u, r.status), e', u, Last(r), next, at);
  }

  lemma DispatchEases(p: Setup, e: Engine, e': Engine, u: Uuid, s: Start, x: Script, next: O.Option<Uuid>, at: Clock)
    requires Dispatches(p, e, e', u, s, x, next, at)
    ensures Eased(e, e')
  {
    hide Legal;
    hide Outcome;
    hide Disposed;
    var r := Outcome(p, e, u, s, x);
    DisposedEases(p, SetStatus(e, u, r.status), e', u, Last(r), next, at);
  }

  lemma EasedShrinks(e: Engine, e': Engine)
    requires e.ready != [] && Eased(TakeReady(e), e')
    ensures || |e'.ready| + |e'.postponed| < |e.ready| + |e.postponed|
            || (|e'.ready| + |e'.postponed| == |e.ready| + |e.postponed| &&
                |e'.ready| + |e'.early| < |e.ready| + |e.early|)
  {
  }

  lemma AnswerOutcome(p: Setup, e: Engine, u: Uuid, s: Start, x: Script)
    requires s.Answer? && Legal(p, e, u, s, x) && e.status[u] == Forward && !e.tasks[u].h.pre && !e.tasks[u].h.worker
    ensures Last(Outcome(p, e, u, s, x)) == RunForward && Outcome(p, e, u, s, x).status == Forward
  {
    ForwardAlways(e.tasks[u].h, Full(p, e), x);
    hide Executed;
    hide ExecuteLegal;
  }

  /** An answered task that has neither pre- nor worker-action is back upstream. */
  lemma BackUpstream(p: Setup, e: Engine, e': Engine, i: nat, ev: Event)
    requires Inv(e, p.capacity, {}) && i < |e.upstream| && ev.Dispatched? && ev.start.Answer? && ev.start.i == i
    requires Happens(p, e, e', ev)
    ensures var u := e.upstream[i];
            && u in e.tasks
            && (!e.tasks[u].h.pre && !e.tasks[u].h.worker ==>
                  e'.upstream == Without(e.upstream, i) + [u] && e'.tasks == e.tasks)
  {
    hide Inv;
    var u, e1 := e.upstream[i], Entered(e, ev.start);
    TakeUpstreamKeeps(e, p.capacity, i);
    hide Legal;
    hide Outcome;
    if !e.tasks[u].h.pre && !e.tasks[u].h.worker {
      AnswerOutcome(p, e1, u, ev.start, ev.x);
    }
  }

  // ----- which tasks an event ends -----

  /** The task that the event answers for good, if there is one: it concludes with Ok, an error, Drop or
      Stop, is rejected on overflow, fails upstream, or expires. */
  function Ended(p: Setup, e: Engine, ev: Event): O.Option<Uuid> {
    match ev
    case Dispatched(s, x, next, at) =>
      if CanStart(e, s) && Legal(p, Entered(e, s), Subject(e, s), s, x)
      then
        var r := Outcome(p, Entered(e, s), Subject(e, s), s, x);
        if Last(r) != RunWorker && r.status in {Ok, Error, InternalError, Drop, Stop, Busy} then O.Some(Subject(e, s))
        else O.None
      else O.None
    case UpstreamFailure(i) => if i < |e.upstream| then O.Some(e.upstream[i]) else O.None
    case Expiry(k, now) =>
      if k < |e.expire| && e.expire[k].1 in e.postponed then O.Some(e.expire[k].1) else O.None
    case _ => O.None
  }

  /** The status a task ends with. */
  function EndStatus(p: Setup, e: Engine, ev: Event): Status {
    match ev
    case Dispatched(s, x, next, at) =>
      if CanStart(e, s) && Legal(p, Entered(e, s), Subject(e, s), s, x)
      then Outcome(p, Entered(e, s), Subject(e, s), s, x).status else None
    case _ => Error
  }

  /** Nothing but `u` (if given) stops living, and the done counter moves as told. */
  ghost predicate Releases(e: Engine, e': Engine, u: O.Option<Uuid>, counted: bool) {
    && (forall w :: w in e.tasks && u != O.Some(w) ==> w in e'.tasks && e'.tasks[w] == e.tasks[w])
    && e'.cntBaseTaskDone == e.cntBaseTaskDone + if counted then 1 else 0
  }

  /** Answering a task for good: a client is released and counted as done, a periodic task is on the
      timer list again, unless it stopped; then it is released. */
  ghost predicate Dies(e: Engine, e': Engine, u: Uuid, status: Status) {
    && u in e.tasks
    && Releases(e, e', O.Some(u), e.tasks[u].kind == Client)
    && if e.tasks[u].kind == Periodic && status != Stop
       then u in e'.tasks && e'.tasks[u] == e.tasks[u] && u in e'.timers
       else u !in e'.tasks
  }

  lemma DieDies(e: Engine, u: Uuid)
    requires u in e.tasks && u in e.status
    ensures Dies(e, Die(e, u), u, e.status[u])
  {
    if e.tasks[u].kind == Periodic && e.status[u] != Stop { assert Die(e, u).timers[|e.timers|] == u; }
  }

  lemma DeliveredReleases(e: Engine, d: Engine, u: Uuid, next: O.Option<Uuid>, now: Time, life: nat)
    requires Delivered(e, d, u, next, now, life)
    ensures d.tasks == e.tasks && d.status == e.status && d.cntBaseTaskDone == e.cntBaseTaskDone
  {
    hide EL.Chopped;
  }

  lemma AnsweredDies(e: Engine, e': Engine, u: Uuid, next: O.Option<Uuid>, now: Time, life: nat)
    requires Answered(e, e', u, next, now, life) && u in e.status
    ensures Dies(e, e', u, e.status[u])
  {
    hide Delivered;
    var d :| Delivered(e, d, u, next, now, life) && u in d.tasks && u in d.status && e' == Die(d, u);
    DeliveredReleases(e, d, u, next, now, life);
    DieDies(d, u);
    hide Die;
  }

  lemma MetReleases(e: Engine, e': Engine, u: Uuid, found: O.Option<Input>, at: Clock, timeout: nat)
    requires Met(e, e', u, found, at, timeout)
    ensures Releases(e, e', O.None, false)
  {
    hide Taken;
  }

  lemma DisposedEnds(p: Setup, e: Engine, e': Engine, u: Uuid, action: Action, next: O.Option<Uuid>, at: Clock)
    requires Disposed(p, e, e', u, action, next, at) && u in e.status
    ensures if action in {RunWorker, RunForward, RunPostpone} then Releases(e, e', O.None, false)
            else Dies(e, e', u, e.status[u])
  {
    hide Met;
    hide Answered;
    hide Dies;
    if action == RunPostpone {
      var found :| Met(e, e', u, found, at, p.timeout);
      MetReleases(e, e', u, found, at, p.timeout);
    } else if action == RunOk {
      AnsweredDies(e, e', u, next, at.look, p.life);
    } else if action != RunWorker && action != RunForward {
      DieDies(e, u);
      hide Die;
    }
  }

  lemma OutcomeEnds(p: Setup, e: Engine, u: Uuid, s: Start, x: Script)
    requires Legal(p, e, u, s, x)
    ensures var r := Outcome(p, e, u, s, x);
            Last(r) in {RunWorker, RunForward, RunPostpone} <==>
            !(Last(r) != RunWorker && r.status in {Ok, Error, InternalError, Drop, Stop, Busy})
  {
    OutcomeSuits(p, e, u, s, x);
    OverflowBusy(p, e, u, s, x);
    hide Outcome;
    hide Legal;
  }

  lemma OverflowBusy(p: Setup, e: Engine, u: Uuid, s: Start, x: Script)
    requires Legal(p, e, u, s, x)
    ensures Last(Outcome(p, e, u, s, x)) == CheckOverflow ==> Outcome(p, e, u, s, x).status == Busy
  {
    var h := e.tasks[u].h;
    if s.JobResult? {
      ReturnedIff(h, e.status[u], x);
      ReturnedMeans(h, e.status[u], x);
    } else {
      ExecutedIff(h, e.status[u], Full(p, e), x);
      ExecutedMeans(h, e.status[u], Full(p, e), x);
    }
    hide Executed;
    hide JobReturned;
    hide ExecuteLegal;
  }

  lemma DispatchEnds(p: Setup, e: Engine, e': Engine, u: Uuid, s: Start, x: Script, next: O.Option<Uuid>, at: Clock)
    requires Dispatches(p, e, e', u, s, x, next, at)
    ensures var r := Outcome(p, e, u, s, x);
            if Last(r) != RunWorker && r.status in {Ok, Error, InternalError, Drop, Stop, Busy}
            then Dies(e, e', u, r.status) else Releases(e, e', O.None, false)
  {
    OutcomeEnds(p, e, u, s, x);
    var r := Outcome(p, e, u, s, x);
    hide Outcome;
    hide Legal;
    hide Disposed;
    DisposedEnds(p, SetStatus(e, u, r.status), e', u, Last(r), next, at);
  }

  /** The state an event acts on: with the subject of a dispatch in hand, a new client included. */
  function Before(e: Engine, ev: Event): Engine {
    if ev.Dispatched? && CanStart(e, ev.start) then Entered(e, ev.start) else e
  }

  lemma BeforeTasks(e: Engine, ev: Event)
    requires ev.Dispatched? ==> CanStart(e, ev.start)
    ensures Before(e, ev).cntBaseTaskDone == e.cntBaseTaskDone
    ensures if ev.Dispatched? && ev.start.NewClient?
            then ev.start.u !in e.tasks && Before(e, ev).tasks == e.tasks[ev.start.u := TaskInfo(Client, ev.start.h)]
            else Before(e, ev).tasks == e.tasks
  {
  }

  /** The tasks that live: all live on, except the one the event answers for good. A client is then
      released and counted as done, once; a periodic task waits for its timer again, unless it ended
      with Stop. */
  lemma EventEnds(p: Setup, e: Engine, e': Engine, ev: Event)
    requires Inv(e, p.capacity, {}) && Happens(p, e, e', ev)
    ensures match Ended(p, e, ev)
            case None => Releases(Before(e, ev), e', O.None, false)
            case Some(u) => Dies(Before(e, ev), e', u, EndStatus(p, e, ev))
  {
    hide Dies;
    hide Releases;
    if ev.Dispatched? {
      hide Inv;
      DispatchedEnds(p, e, e', ev);
    } else if ev.UpstreamFailure? {
      FailureEnds(e, p.capacity, ev.i);
      hide Inv;
      hide Die;
    } else {
      hide Inv;
      IdleEnds(p, e, e', ev);
    }
    hide Happens;
    hide Ended;
    hide EndStatus;
    hide Before;
  }

  lemma DispatchedEnds(p: Setup, e: Engine, e': Engine, ev: Event)
    requires Happens(p, e, e', ev) && ev.Dispatched?
    ensures match Ended(p, e, ev)
            case None => Releases(Before(e, ev), e', O.None, false)
            case Some(u) => Dies(Before(e, ev), e', u, EndStatus(p, e, ev))
  {
    var s := ev.start;
    hide Entered;
    hide Subject;
    hide Outcome;
    hide Legal;
    hide Dies;
    hide Releases;
    DispatchEnds(p, Entered(e, s), e', Subject(e, s), s, ev.x, ev.next, ev.at);
    hide Disposed;
  }

  lemma FailureEnds(e: Engine, capacity: nat, i: nat)
    requires Inv(e, capacity, {}) && i < |e.upstream|
    ensures var u := e.upstream[i];
            && u in e.tasks && u in e.status
            && Dies(e, Die(SetStatus(TakeUpstream(e, i), u, Error), u), u, Error)
  {
    hide Inv;
    hide Die;
    hide Dies;
    var u := e.upstream[i];
    TakeUpstreamKeeps(e, capacity, i);
    var d := SetStatus(TakeUpstream(e, i), u, Error);
    DieDies(d, u);
    DiesFrom(e, d, Die(d, u), u, Error);
  }

  lemma DiesFrom(e: Engine, d: Engine, e': Engine, u: Uuid, status: Status)
    requires d.tasks == e.tasks && d.cntBaseTaskDone == e.cntBaseTaskDone && Dies(d, e', u, status)
    ensures Dies(e, e', u, status)
  {
  }

  lemma IdleEnds(p: Setup, e: Engine, e': Engine, ev: Event)
    requires Happens(p, e, e', ev) && !ev.Dispatched? && !ev.UpstreamFailure?
    ensures match Ended(p, e, ev)
            case None => Releases(e, e', O.None, false)
            case Some(u) => Dies(e, e', u, Error)
  {
    if ev.Expiry? && e.expire[ev.k].1 in e.postponed {
      DieDies(SetStatus(e, e.expire[ev.k].1, Error), e.expire[ev.k].1);
      hide Die;
    }
  }

  // ----- runs -----

  /** A run: the events, and the states before, between and after them. */
  datatype Log = Log(states: seq<Engine>, events: seq<Event>)

  ghost predicate IsRun(p: Setup, log: Log) {
    && |log.states| == |log.events| + 1
    && forall k :: 0 <= k < |log.events| ==> Happens(p, log.states[k], log.states[k + 1], log.events[k])
  }

  /** A run that leads from one state to another. */
  ghost predicate Links(p: Setup, log: Log, e: Engine, e': Engine) {
    IsRun(p, log) && log.states[0] == e && log.states[|log.events|] == e'
  }

  ghost function Joined(a: Log, b: Log): Log
    requires b.states != []
  {
    Log(a.states + b.states[1..], a.events + b.events)
  }

  lemma JoinedLinks(p: Setup, a: Log, b: Log, e: Engine, mid: Engine, e': Engine)
    requires Links(p, a, e, mid) && Links(p, b, mid, e')
    ensures Links(p, Joined(a, b), e, e')
  {
    hide Happens;
    var c, n := Joined(a, b), |a.events|;
    forall k | 0 <= k < |c.events| ensures Happens(p, c.states[k], c.states[k + 1], c.events[k]) {
      if k < n {
        assert Happens(p, a.states[k], a.states[k + 1], a.events[k]);
      } else {
        assert Happens(p, b.states[k - n], b.states[k - n + 1], b.events[k - n]);
        assert c.states[k] == b.states[k - n];
      }
    }
  }

  /** One more event. */
  lemma ExtendedLinks(p: Setup, a: Log, e: Engine, mid: Engine, e': Engine, ev: Event)
    requires Links(p, a, e, mid) && Happens(p, mid, e', ev)
    ensures Links(p, Log(a.states + [e'], a.events + [ev]), e, e')
  {
    hide Happens;
    var c := Log(a.states + [e'], a.events + [ev]);
    forall k | 0 <= k < |c.events| ensures Happens(p, c.states[k], c.states[k + 1], c.events[k]) {
      if k < |a.events| { assert Happens(p, a.states[k], a.states[k + 1], a.events[k]); }
    }
  }

  /** Every state of every run satisfies the invariant. */
  lemma {:induction false} RunKeeps(p: Setup, log: Log, k: nat)
    requires IsRun(p, log) && Inv(log.states[0], p.capacity, {}) && k <= |log.events|
    ensures Inv(log.states[k], p.capacity, {})
  {
    hide Inv;
    hide Happens;
    if k > 0 {
      RunKeeps(p, log, k - 1);
      EventKeeps(p, log.states[k - 1], log.states[k], log.events[k - 1]);
    }
  }
}
