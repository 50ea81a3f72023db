/** The task state machine: a transition table interpreted by a loop. Handlers are arbitrary;
    what they return in one dispatch is given by a script. */
module Dispatch {
  import O = Options

  datatype Status =
    | None | Ok | Forward | Again | Error | Drop | Busy | InternalError | Postpone | Stop

  datatype State =
    | EXECUTE | PRE_ACTION | CHK_PRE_ACTION | WORKER_ACTION | CHK_WORKER_ACTION
    | WORKER_ACTION_DONE | POST_ACTION | CHK_POST_ACTION | AGAIN | EXIT

  datatype Action =
    | NoAction | CheckOverflow | RunPre | RunWorker | RunPost | RunResponse
    | RunForward | RunOk | RunError | RunDrop | RunPostpone

  /** Which of the three actions a handler has. */
  datatype Handlers = Handlers(pre: bool, worker: bool, post: bool)

  datatype Guard = Always | HasPre | HasWorker

  /** An empty status set stands for any status. */
  datatype Row = Row(start: State, statuses: set<Status>, end: State, guard: Guard, action: Action)

  const TABLE: seq<Row> := [
    Row(EXECUTE, {}, PRE_ACTION, Always, CheckOverflow),
    Row(PRE_ACTION, {Busy}, EXIT, Always, NoAction),
    Row(PRE_ACTION, {None, Ok, Forward, Postpone}, CHK_PRE_ACTION, Always, RunPre),
    Row(CHK_PRE_ACTION, {Again}, PRE_ACTION, Always, RunResponse),
    Row(CHK_PRE_ACTION, {Ok}, WORKER_ACTION, HasPre, NoAction),
    Row(CHK_PRE_ACTION, {Forward}, POST_ACTION, HasPre, NoAction),
    Row(CHK_PRE_ACTION, {Error, InternalError, Stop}, EXIT, HasPre, RunError),
    Row(CHK_PRE_ACTION, {Drop}, EXIT, HasPre, RunDrop),
    Row(CHK_PRE_ACTION, {None, Ok, Forward, Postpone}, WORKER_ACTION, Always, NoAction),
    Row(WORKER_ACTION, {}, CHK_WORKER_ACTION, Always, RunWorker),
    Row(CHK_WORKER_ACTION, {}, EXIT, HasWorker, NoAction),
    Row(CHK_WORKER_ACTION, {}, POST_ACTION, Always, NoAction),
    Row(WORKER_ACTION_DONE, {Again}, WORKER_ACTION, Always, RunResponse),
    Row(WORKER_ACTION_DONE, {}, POST_ACTION, Always, NoAction),
    Row(POST_ACTION, {}, CHK_POST_ACTION, Always, RunPost),
    Row(CHK_POST_ACTION, {Again}, POST_ACTION, Always, RunResponse),
    Row(CHK_POST_ACTION, {Forward}, EXIT, Always, RunForward),
    Row(CHK_POST_ACTION, {Ok}, EXIT, Always, RunOk),
    Row(CHK_POST_ACTION, {Error, InternalError, Stop}, EXIT, Always, RunError),
    Row(CHK_POST_ACTION, {Drop}, EXIT, Always, RunDrop),
    Row(CHK_POST_ACTION, {Postpone}, EXIT, Always, RunPostpone)
  ]

  predicate Matches(r: Row, state: State, status: Status, h: Handlers) {
    && r.start == state
    && (r.statuses == {} || status in r.statuses)
    && match r.guard { case Always => true case HasPre => h.pre case HasWorker => h.worker }
  }

  /** What the table amounts to: the next state and the action on the way, if there is a row. */
  function Next(state: State, status: Status, h: Handlers): O.Option<(State, Action)> {
    match state
    case EXECUTE => O.Some((PRE_ACTION, CheckOverflow))
    case PRE_ACTION =>
      if status == Busy then O.Some((EXIT, NoAction))
      else if status in {None, Ok, Forward, Postpone} then O.Some((CHK_PRE_ACTION, RunPre))
      else O.None
    case CHK_PRE_ACTION =>
      if status == Again then O.Some((PRE_ACTION, RunResponse))
      else if h.pre && status == Forward then O.Some((POST_ACTION, NoAction))
      else if h.pre && status in {Error, InternalError, Stop} then O.Some((EXIT, RunError))
      else if h.pre && status == Drop then O.Some((EXIT, RunDrop))
      else if status in {None, Ok, Forward, Postpone} then O.Some((WORKER_ACTION, NoAction))
      else O.None
    case WORKER_ACTION => O.Some((CHK_WORKER_ACTION, RunWorker))
    case CHK_WORKER_ACTION => O.Some((if h.worker then EXIT else POST_ACTION, NoAction))
    case WORKER_ACTION_DONE => O.Some(if status == Again then (WORKER_ACTION, RunResponse) else (POST_ACTION, NoAction))
    case POST_ACTION => O.Some((CHK_POST_ACTION, RunPost))
    case CHK_POST_ACTION => (
      match status
      case Again => O.Some((POST_ACTION, RunResponse))
      case Forward => O.Some((EXIT, RunForward))
      case Ok => O.Some((EXIT, RunOk))
      case Error => O.Some((EXIT, RunError))
      case InternalError => O.Some((EXIT, RunError))
      case Stop => O.Some((EXIT, RunError))
      case Drop => O.Some((EXIT, RunDrop))
      case Postpone => O.Some((EXIT, RunPostpone))
      case None => O.None
      case Busy => O.None)
    case AGAIN => O.None
    case EXIT => O.None
  }

  /** The first matching row is the transition described by `Next`. */
  lemma FirstRow(i: nat, state: State, status: Status, h: Handlers)
    requires i < |TABLE| && Matches(TABLE[i], state, status, h)
    requires forall j :: 0 <= j < i ==> !Matches(TABLE[j], state, status, h)
    ensures Next(state, status, h) == O.Some((TABLE[i].end, TABLE[i].action))
  {
    if i <= 2 {
      FirstRowPre(i, state, status, h);
    } else if i <= 8 {
      FirstRowChkPre(i, state, status, h);
    } else if i <= 13 {
      FirstRowWorker(i, state, status, h);
    } else {
      FirstRowPost(i, state, status, h);
    }
  }

  lemma FirstRowPre(i: nat, state: State, status: Status, h: Handlers)
    requires i <= 2 && Matches(TABLE[i], state, status, h)
    requires forall j :: 0 <= j < i ==> !Matches(TABLE[j], state, status, h)
    ensures Next(state, status, h) == O.Some((TABLE[i].end, TABLE[i].action))
  {
    if i == 2 { assert !Matches(TABLE[1], state, status, h); }
  }

  lemma FirstRowWorker(i: nat, state: State, status: Status, h: Handlers)
    requires 9 <= i <= 13 && Matches(TABLE[i], state, status, h)
    requires forall j :: 0 <= j < i ==> !Matches(TABLE[j], state, status, h)
    ensures Next(state, status, h) == O.Some((TABLE[i].end, TABLE[i].action))
  {
    if i == 11 { assert !Matches(TABLE[10], state, status, h); }
    if i == 13 { assert !Matches(TABLE[12], state, status, h); }
  }

  lemma FirstRowPost(i: nat, state: State, status: Status, h: Handlers)
    requires 14 <= i < |TABLE| && Matches(TABLE[i], state, status, h)
    ensures Next(state, status, h) == O.Some((TABLE[i].end, TABLE[i].action))
  {
    if i <= 17 {
      assert i == 14 || i == 15 || i == 16 || i == 17;
    } else {
      assert i == 18 || i == 19 || i == 20;
    }
  }

  lemma FirstRowChkPre(i: nat, state: State, status: Status, h: Handlers)
    requires 3 <= i <= 8 && Matches(TABLE[i], state, status, h)
    requires forall j :: 0 <= j < i ==> !Matches(TABLE[j], state, status, h)
    ensures Next(state, status, h) == O.Some((TABLE[i].end, TABLE[i].action))
  {
    if i == 8 {
      assert !Matches(TABLE[4], state, status, h) && !Matches(TABLE[5], state, status, h);
    }
  }

  lemma NoRow(state: State, status: Status, h: Handlers)
    requires forall j :: 0 <= j < |TABLE| ==> !Matches(TABLE[j], state, status, h)
    ensures Next(state, status, h) == O.None
  {
    if state == EXECUTE || state == PRE_ACTION {
      assert !Matches(TABLE[0], state, status, h) && !Matches(TABLE[1], state, status, h);
      assert !Matches(TABLE[2], state, status, h);
    } else if state == CHK_PRE_ACTION {
      assert !Matches(TABLE[3], state, status, h) && !Matches(TABLE[6], state, status, h);
      assert !Matches(TABLE[7], state, status, h) && !Matches(TABLE[8], state, status, h);
    } else if state == CHK_POST_ACTION {
      assert !Matches(TABLE[15], state, status, h) && !Matches(TABLE[16], state, status, h);
      assert !Matches(TABLE[17], state, status, h) && !Matches(TABLE[18], state, status, h);
      assert !Matches(TABLE[19], state, status, h) && !Matches(TABLE[20], state, status, h);
    } else {
      assert !Matches(TABLE[9], state, status, h) && !Matches(TABLE[11], state, status, h);
      assert !Matches(TABLE[13], state, status, h) && !Matches(TABLE[14], state, status, h);
    }
  }

  // ----- one dispatch -----

  /** What the handlers return while a task is dispatched: `pre` from the pre-action, and from the
      post-action Again the given number of times, then `post`. */
  datatype Script = Script(pre: Status, again: nat, post: Status)

  /** The actions taken, in order, and the final status; or the state the table has no row for. */
  datatype Result =
    | Finished(trace: seq<Action>, status: Status)
    | Incomplete(trace: seq<Action>, state: State, status: Status)

  function After(action: Action, r: Result): Result {
    if action == NoAction then r else r.(trace := [action] + r.trace)
  }

  function AgainRounds(n: nat, r: Result): Result {
    if n == 0 then r else After(RunPost, After(RunResponse, AgainRounds(n - 1, r)))
  }

  /** How the check after the post-action ends a dispatch. */
  function Ending(status: Status): Result
    requires status != Again
  {
    match status
    case Forward => Finished([RunForward], status)
    case Ok => Finished([RunOk], status)
    case Error => Finished([RunError], status)
    case InternalError => Finished([RunError], status)
    case Stop => Finished([RunError], status)
    case Drop => Finished([RunDrop], status)
    case Postpone => Finished([RunPostpone], status)
    case None => Incomplete([], CHK_POST_ACTION, status)
    case Busy => Incomplete([], CHK_POST_ACTION, status)
  }

  /** The post phase: a pending Forward wins over whatever the post-action returns. */
  function PostPhase(h: Handlers, status: Status, x: Script, runs: nat): Result
    requires x.post != Again && (status == Again ==> h.post)
  {
    if h.post && status != Forward then
      AgainRounds(if runs <= x.again then x.again - runs else 0, After(RunPost, Ending(x.post)))
    else After(RunPost, Ending(status))
  }

  function WorkerPhase(h: Handlers, status: Status, x: Script): Result
    requires x.post != Again && (status == Again ==> h.worker)
  {
    if h.worker then Finished([RunWorker], status) else After(RunWorker, PostPhase(h, status, x, 0))
  }

  /** After the pre-action. */
  function ChkPre(h: Handlers, status: Status, x: Script): Result
    requires x.post != Again
  {
    match status
    case Again => Incomplete([RunResponse], PRE_ACTION, Again)
    case Ok => WorkerPhase(h, status, x)
    case None => WorkerPhase(h, status, x)
    case Postpone => WorkerPhase(h, status, x)
    case Forward => if h.pre then PostPhase(h, Forward, x, 0) else WorkerPhase(h, status, x)
    case Busy => Incomplete([], CHK_PRE_ACTION, Busy)
    case Drop => if h.pre then Finished([RunDrop], Drop) else Incomplete([], CHK_PRE_ACTION, Drop)
    case _ => if h.pre then Finished([RunError], status) else Incomplete([], CHK_PRE_ACTION, status)
  }

  function PrePhase(h: Handlers, status: Status, x: Script): Result
    requires x.post != Again
  {
    if status == Busy then Finished([], Busy)
    else if status in {None, Ok, Forward, Postpone} then After(RunPre, ChkPre(h, if h.pre then x.pre else status, x))
    else Incomplete([], PRE_ACTION, status)
  }

  /** `Execute`: reject on overflow, otherwise the pre phase. */
  function Executed(h: Handlers, status: Status, full: bool, x: Script): Result
    requires x.post != Again
  {
    if h.worker && full then Finished([CheckOverflow], Busy) else After(CheckOverflow, PrePhase(h, status, x))
  }

  /** A finished worker job. */
  function JobReturned(h: Handlers, status: Status, x: Script): Result
    requires x.post != Again && h.worker
  {
    if status == Again then Finished([RunResponse, RunWorker], Again) else PostPhase(h, status, x, 0)
  }

  /** What remains to be done in any state the loop can be in. */
  function Remaining(h: Handlers, full: bool, x: Script, state: State, status: Status, runs: nat): Result
    requires x.post != Again && Spinless(h, state, status)
  {
    match state
    case EXECUTE => Executed(h, status, full, x)
    case PRE_ACTION => PrePhase(h, status, x)
    case CHK_PRE_ACTION => ChkPre(h, status, x)
    case WORKER_ACTION => WorkerPhase(h, status, x)
    case CHK_WORKER_ACTION => if h.worker then Finished([], status) else PostPhase(h, status, x, runs)
    case WORKER_ACTION_DONE => JobReturned(h, status, x)
    case POST_ACTION => PostPhase(h, status, x, runs)
    case CHK_POST_ACTION => if status == Again then After(RunResponse, PostPhase(h, Again, x, runs)) else Ending(status)
    case AGAIN => Incomplete([], AGAIN, status)
    case EXIT => Finished([], status)
  }

  /** Excludes the states from which the table would loop for ever: Again in a phase whose action
      the handler lacks. No dispatch gets there. */
  predicate Spinless(h: Handlers, state: State, status: Status) {
    && (state == WORKER_ACTION_DONE ==> h.worker)
    && (status == Again && state in {WORKER_ACTION, CHK_WORKER_ACTION} ==> h.worker)
    && (status == Again && state in {POST_ACTION, CHK_POST_ACTION} ==> h.post)
  }

  /** An action's effect on the status and on the number of post-action runs. */
  function Perform(h: Handlers, full: bool, x: Script, action: Action, status: Status, runs: nat): (Status, nat) {
    match action
    case CheckOverflow => (if h.worker && full then Busy else status, runs)
    case RunPre => (if h.pre then x.pre else status, runs)
    case RunPost =>
      if !h.post then (status, runs)
      else (if status == Forward then Forward else if runs < x.again then Again else x.post, runs + 1)
    case _ => (status, runs)
  }

  /** What the loop keeps about the number of post-action runs. */
  predicate Paced(x: Script, state: State, status: Status, runs: nat) {
    && (state !in {POST_ACTION, CHK_POST_ACTION, EXIT} ==> runs == 0)
    && (state == POST_ACTION ==> runs <= x.again)
    && (state == CHK_POST_ACTION && status == Again ==> runs <= x.again)
  }

  /** One transition takes its action off the front of what remains. */
  ghost predicate Stepped(h: Handlers, full: bool, x: Script, state: State, status: Status, runs: nat)
    requires x.post != Again && Spinless(h, state, status)
  {
    match Next(state, status, h)
    case None => Remaining(h, full, x, state, status, runs) == Incomplete([], state, status)
    case Some((end, action)) =>
      var (status', runs') := Perform(h, full, x, action, status, runs);
      && Spinless(h, end, status') && Paced(x, end, status', runs')
      && Remaining(h, full, x, state, status, runs) == After(action, Remaining(h, full, x, end, status', runs'))
  }

  lemma StepPost(h: Handlers, full: bool, x: Script, status: Status, runs: nat)
    requires x.post != Again && Spinless(h, POST_ACTION, status) && Paced(x, POST_ACTION, status, runs)
    ensures Stepped(h, full, x, POST_ACTION, status, runs)
  {
    hide ChkPre;
    hide PrePhase;
    hide WorkerPhase;
    if h.post && status != Forward {
      if runs < x.again {
        assert PostPhase(h, status, x, runs) == After(RunPost, After(RunResponse, PostPhase(h, Again, x, runs + 1)));
        hide PostPhase;
      }
    }
  }

  lemma StepChkPost(h: Handlers, full: bool, x: Script, status: Status, runs: nat)
    requires x.post != Again && Spinless(h, CHK_POST_ACTION, status) && Paced(x, CHK_POST_ACTION, status, runs)
    ensures Stepped(h, full, x, CHK_POST_ACTION, status, runs)
  {
    hide ChkPre;
    hide PrePhase;
    hide WorkerPhase;
    hide PostPhase;
  }

  lemma StepEarly(h: Handlers, full: bool, x: Script, state: State, status: Status, runs: nat)
    requires x.post != Again && state !in {POST_ACTION, CHK_POST_ACTION, EXIT, CHK_PRE_ACTION}
    requires Spinless(h, state, status) && Paced(x, state, status, runs)
    ensures Stepped(h, full, x, state, status, runs)
  {
    hide PostPhase;
    hide ChkPre;
  }

  lemma StepChkPre(h: Handlers, full: bool, x: Script, status: Status)
    requires x.post != Again
    ensures Stepped(h, full, x, CHK_PRE_ACTION, status, 0)
  {
    hide PostPhase;
    hide WorkerPhase;
  }

  lemma StepRemaining(h: Handlers, full: bool, x: Script, state: State, status: Status, runs: nat)
    requires x.post != Again && state != EXIT && Spinless(h, state, status) && Paced(x, state, status, runs)
    ensures Stepped(h, full, x, state, status, runs)
  {
    hide Stepped;
    if state == POST_ACTION {
      StepPost(h, full, x, status, runs);
    } else if state == CHK_POST_ACTION {
      StepChkPost(h, full, x, status, runs);
    } else if state == CHK_PRE_ACTION {
      StepChkPre(h, full, x, status);
    } else {
      StepEarly(h, full, x, state, status, runs);
    }
  }

  /** The number of post-action runs left, then the way to EXIT, shrink with every step. */
  function Rank(h: Handlers, state: State, status: Status): nat {
    match state
    case EXECUTE => 9
    case PRE_ACTION => if status == Again then 1 else 8
    case CHK_PRE_ACTION => 7
    case WORKER_ACTION_DONE => 6
    case WORKER_ACTION => 5
    case CHK_WORKER_ACTION => 4
    case POST_ACTION => if h.post then 2 else 3
    case CHK_POST_ACTION => if h.post then 3 else 2
    case AGAIN => 1
    case EXIT => 0
  }

  lemma RankFalls(h: Handlers, full: bool, x: Script, state: State, status: Status, runs: nat)
    requires state != EXIT && Spinless(h, state, status) && Paced(x, state, status, runs)
    ensures match Next(state, status, h)
            case None => true
            case Some((end, action)) =>
              var (status', runs') := Perform(h, full, x, action, status, runs);
              runs < runs' <= x.again + 1 || (runs == runs' && Rank(h, end, status') < Rank(h, state, status))
  {
  }

  lemma NextStep(h: Handlers, full: bool, x: Script, state: State, status: Status, runs: nat)
    requires x.post != Again && state != EXIT && Spinless(h, state, status) && Paced(x, state, status, runs)
    ensures match Next(state, status, h)
            case None => Remaining(h, full, x, state, status, runs) == Incomplete([], state, status)
            case Some((end, action)) =>
              var (status', runs') := Perform(h, full, x, action, status, runs);
              && Spinless(h, end, status') && Paced(x, end, status', runs')
              && Remaining(h, full, x, state, status, runs) == After(action, Remaining(h, full, x, end, status', runs'))
  {
    StepRemaining(h, full, x, state, status, runs);
  }

  lemma Ends(h: Handlers, full: bool, x: Script, initial: State, status: Status, runs: nat)
    requires x.post != Again && (initial == EXECUTE || (initial == WORKER_ACTION_DONE && h.worker))
    ensures Spinless(h, initial, status) && Paced(x, initial, status, 0)
    ensures Remaining(h, full, x, initial, status, 0) ==
            if initial == EXECUTE then Executed(h, status, full, x) else JobReturned(h, status, x)
  {
  }

  lemma Exits(h: Handlers, full: bool, x: Script, status: Status, runs: nat)
    requires x.post != Again
    ensures Spinless(h, EXIT, status) && Remaining(h, full, x, EXIT, status, runs) == Finished([], status)
  {
  }

  function Prefixed(trace: seq<Action>, r: Result): Result {
    r.(trace := trace + r.trace)
  }

  lemma PrefixedAfter(trace: seq<Action>, action: Action, r: Result)
    ensures Prefixed(trace, After(action, r)) == Prefixed(if action == NoAction then trace else trace + [action], r)
  {
    assert trace + ([action] + r.trace) == (trace + [action]) + r.trace;
  }

  lemma PrefixedEnds(trace: seq<Action>, state: State, status: Status, r: Result)
    ensures Prefixed([], r) == r
    ensures Prefixed(trace, Finished([], status)) == Finished(trace, status)
    ensures Prefixed(trace, Incomplete([], state, status)) == Incomplete(trace, state, status)
  {
  }

  class StateMachine {
    var state: State

    constructor ()
      ensures state == EXECUTE
    {
      state := EXECUTE;
    }

    /** The search for the first row that fits the state, the status and the handler. */
    method FindRow(status: Status, h: Handlers) returns (row: O.Option<Row>)
      ensures match row
              case None => Next(state, status, h) == O.None
              case Some(r) => Next(state, status, h) == O.Some((r.end, r.action))
    {
      var i := 0;
      while i < |TABLE|
        invariant i <= |TABLE| && forall j :: 0 <= j < i ==> !Matches(TABLE[j], state, status, h)
      {
        if Matches(TABLE[i], state, status, h) {
          FirstRow(i, state, status, h);
          return O.Some(TABLE[i]);
        }
        i := i + 1;
      }
      NoRow(state, status, h);
      row := O.None;
    }

    /** The dispatch loop computes exactly the closed-form outcome, and always terminates. */
    method Dispatch(h: Handlers, entry: Status, initial: State, full: bool, x: Script) returns (r: Result)
      requires x.post != Again && (initial == EXECUTE || (initial == WORKER_ACTION_DONE && h.worker))
      modifies this
      ensures r == if initial == EXECUTE then Executed(h, entry, full, x) else JobReturned(h, entry, x)
      ensures r.Finished? ==> state == EXIT
    {
      hide *;
      state := initial;
      var status, runs, trace := entry, 0, [];
      Ends(h, full, x, initial, entry, 0);
      ghost var whole := Remaining(h, full, x, initial, entry, 0);
      PrefixedEnds(trace, initial, entry, whole);
      while state != EXIT
        invariant Spinless(h, state, status) && Paced(x, state, status, runs)
        invariant Prefixed(trace, Remaining(h, full, x, state, status, runs)) == whole
        decreases x.again + 2 - runs, Rank(h, state, status)
      {
        NextStep(h, full, x, state, status, runs);
        RankFalls(h, full, x, state, status, runs);
        var row := FindRow(status, h);
        if row == O.None {
          PrefixedEnds(trace, state, status, whole);
          return Incomplete(trace, state, status);
        }
        var action, end := row.value.action, row.value.end;
        var effect := Perform(h, full, x, action, status, runs);
        PrefixedAfter(trace, action, Remaining(h, full, x, end, effect.0, effect.1));
        status, runs := effect.0, effect.1;
        if action != NoAction {
          trace := trace + [action];
        }
        state := end;
      }
      Exits(h, full, x, status, runs);
      PrefixedEnds(trace, EXIT, status, whole);
      r := Finished(trace, status);
    }
  }

  // ----- what every dispatch does with its task -----

  /** The status the post phase ends with. */
  function Settled(h: Handlers, status: Status, x: Script): Status {
    if h.post && status != Forward then x.post else status
  }

  predicate Answers(status: Status) {
    status != None && status != Busy && status != Again
  }

  /** When `Execute` runs to EXIT: overflow rejects at once; otherwise the pre-action must not return
      Again or Busy, and if the task is neither stopped there nor handed to a worker, the post phase
      must end with a status that has a row. */
  predicate ExecuteLegal(h: Handlers, status: Status, full: bool, x: Script) {
    || (h.worker && full)
    || var s := if h.pre then x.pre else status;
       && s != Again && s != Busy
       && (|| h.worker || Answers(Settled(h, s, x))
           || (h.pre && s in {Error, InternalError, Stop, Drop}))
  }

  /** Exactly these dispatches of a new or resumed task find a row in every state. */
  lemma ExecutedIff(h: Handlers, status: Status, full: bool, x: Script)
    requires x.post != Again && status in {None, Ok, Forward, Postpone}
    ensures Executed(h, status, full, x).Finished? <==> ExecuteLegal(h, status, full, x)
  {
    PostIff(h, if h.pre then x.pre else status, x);
  }

  lemma ReturnedIff(h: Handlers, status: Status, x: Script)
    requires x.post != Again && h.worker
    ensures JobReturned(h, status, x).Finished? <==> status == Again || Answers(Settled(h, status, x))
  {
    PostIff(h, status, x);
  }

  lemma PostIff(h: Handlers, status: Status, x: Script)
    requires x.post != Again
    ensures status == Again ==> h.post ==> PostPhase(h, status, x, 0).Finished? == Answers(x.post)
    ensures status != Again ==> (PostPhase(h, status, x, 0).Finished? <==> Answers(Settled(h, status, x)))
  {
    RoundsShape(x.again, After(RunPost, Ending(x.post)));
  }

  /** The ways a task leaves the dispatcher. */
  predicate Disposes(h: Handlers, full: bool, action: Action) {
    match action
    case CheckOverflow => h.worker && full
    case RunWorker => h.worker
    case RunForward => true
    case RunOk => true
    case RunError => true
    case RunDrop => true
    case RunPostpone => true
    case _ => false
  }

  /** The last action, and no other, disposes of the task. */
  ghost predicate DisposedOnce(h: Handlers, full: bool, trace: seq<Action>) {
    && trace != []
    && Disposes(h, full, trace[|trace| - 1])
    && forall i :: 0 <= i < |trace| - 1 ==> !Disposes(h, full, trace[i])
  }

  lemma {:induction false} RoundsShape(n: nat, r: Result)
    ensures var all := AgainRounds(n, r);
            && all.Finished? == r.Finished? && all.status == r.status
            && |all.trace| == 2 * n + |r.trace|
            && all.trace[2 * n..] == r.trace
            && forall i :: 0 <= i < 2 * n ==> all.trace[i] == RunPost || all.trace[i] == RunResponse
  {
    if n > 0 {
      RoundsShape(n - 1, r);
      var before, all := AgainRounds(n - 1, r), AgainRounds(n, r);
      assert all.trace == [RunPost, RunResponse] + before.trace;
      assert all.trace[2 * n..] == before.trace[2 * (n - 1)..];
    }
  }

  lemma PostDisposes(h: Handlers, full: bool, status: Status, x: Script)
    requires x.post != Again && (status == Again ==> h.post)
    ensures var r := PostPhase(h, status, x, 0); r.Finished? ==> DisposedOnce(h, full, r.trace)
  {
    EndingDisposes(h, full, x.post);
    if status != Again { EndingDisposes(h, full, status); }
    RoundsShape(x.again, After(RunPost, Ending(x.post)));
    hide Ending;
    if h.post && status != Forward && Ending(x.post).Finished? {
      RoundsDispose(h, full, x.again, After(RunPost, Ending(x.post)));
    }
  }

  lemma EndingDisposes(h: Handlers, full: bool, status: Status)
    requires status != Again
    ensures Ending(status).Finished? ==> DisposedOnce(h, full, After(RunPost, Ending(status)).trace)
  {
  }

  lemma RoundsDispose(h: Handlers, full: bool, n: nat, r: Result)
    requires DisposedOnce(h, full, r.trace)
    ensures DisposedOnce(h, full, AgainRounds(n, r).trace)
  {
    RoundsShape(n, r);
    var all := AgainRounds(n, r).trace;
    hide AgainRounds;
    assert forall i :: 2 * n <= i < |all| ==> all[i] == r.trace[i - 2 * n];
  }

  lemma DisposedLater(h: Handlers, full: bool, first: Action, trace: seq<Action>)
    requires DisposedOnce(h, full, trace) && !Disposes(h, full, first)
    ensures DisposedOnce(h, full, [first] + trace)
  {
  }

  /** Every completed dispatch disposes of its task in exactly one way: rejected, posted to the
      pool, forwarded, postponed or finally answered. */
  lemma DispatchDisposes(h: Handlers, initial: State, entry: Status, full: bool, x: Script)
    requires x.post != Again && (initial == EXECUTE || (initial == WORKER_ACTION_DONE && h.worker))
    ensures var r := if initial == EXECUTE then Executed(h, entry, full, x) else JobReturned(h, entry, x);
            r.Finished? && (entry == Busy ==> initial != EXECUTE) ==> DisposedOnce(h, full, r.trace)
  {
    if initial == EXECUTE {
      if !(h.worker && full) && entry in {None, Ok, Forward, Postpone} {
        var s := if h.pre then x.pre else entry;
        ChkPreDisposes(h, full, s, x);
        var r := ChkPre(h, s, x);
        if r.Finished? {
          DisposedLater(h, full, RunPre, r.trace);
          DisposedLater(h, full, CheckOverflow, [RunPre] + r.trace);
        }
      }
    } else if entry != Again {
      PostDisposes(h, full, entry, x);
    }
  }

  lemma ChkPreDisposes(h: Handlers, full: bool, s: Status, x: Script)
    requires x.post != Again
    ensures ChkPre(h, s, x).Finished? ==> DisposedOnce(h, full, ChkPre(h, s, x).trace)
  {
    if s != Again {
      PostDisposes(h, full, s, x);
      hide PostPhase;
      var r := PostPhase(h, s, x, 0);
      if r.Finished? && !h.worker { DisposedLater(h, full, RunWorker, r.trace); }
    }
  }

  // ----- which action goes with which status -----

  function Last(r: Result): Action {
    if r.trace == [] then NoAction else r.trace[|r.trace| - 1]
  }

  /** A task that is not handed to a worker or rejected is disposed of as its final status says. */
  predicate Suits(action: Action, status: Status) {
    && (action == RunOk <==> status == Ok)
    && (action == RunForward <==> status == Forward)
    && (action == RunPostpone <==> status == Postpone)
    && (action == RunDrop <==> status == Drop)
    && (action == RunError <==> status in {Error, InternalError, Stop})
    && action in {RunOk, RunForward, RunPostpone, RunDrop, RunError}
  }

  lemma LastAfter(action: Action, r: Result)
    ensures r.trace != [] ==> Last(After(action, r)) == Last(r) && After(action, r).trace != []
  {
  }

  lemma EndingSuits(status: Status)
    requires status != Again && Ending(status).Finished?
    ensures |Ending(status).trace| == 1 && Ending(status).status == status && Suits(Last(Ending(status)), status)
  {
  }

  lemma RoundsLast(n: nat, r: Result)
    requires r.trace != []
    ensures Last(AgainRounds(n, r)) == Last(r)
  {
    RoundsShape(n, r);
    var all := AgainRounds(n, r).trace;
    hide AgainRounds;
    assert all[|all| - 1] == all[2 * n..][|r.trace| - 1];
  }

  /** The post phase ends with the post-action's status, or with the one it found if there is no
      post-action or a Forward is pending, and disposes accordingly. */
  lemma PostMeans(h: Handlers, status: Status, x: Script)
    requires x.post != Again && status != Again
    ensures var r := PostPhase(h, status, x, 0);
            r.Finished? ==> r.trace != [] && r.status == Settled(h, status, x) && Suits(Last(r), r.status)
  {
    var ending := Ending(Settled(h, status, x));
    if ending.Finished? {
      EndingSuits(Settled(h, status, x));
      LastAfter(RunPost, ending);
      RoundsLast(x.again, After(RunPost, ending));
    }
    RoundsShape(x.again, After(RunPost, ending));
    hide AgainRounds;
    hide Ending;
    hide Suits;
  }

  /** `n` pairs of a post-action and a response, then `tail`. */
  ghost predicate Rounds(all: seq<Action>, n: nat, tail: seq<Action>) {
    && |all| == 2 * n + |tail|
    && (forall i :: 0 <= i < n ==> all[2 * i] == RunPost && all[2 * i + 1] == RunResponse)
    && (forall i :: 0 <= i < |tail| ==> all[2 * n + i] == tail[i])
  }

  lemma OneMoreRound(all: seq<Action>, n: nat, tail: seq<Action>)
    requires Rounds(all, n, tail)
    ensures Rounds([RunPost, RunResponse] + all, n + 1, tail)
  {
    var more := [RunPost, RunResponse] + all;
    forall i | 0 <= i < n + 1 ensures more[2 * i] == RunPost && more[2 * i + 1] == RunResponse {
      if i > 0 { assert more[2 * i] == all[2 * (i - 1)] && more[2 * i + 1] == all[2 * (i - 1) + 1]; }
    }
  }

  /** A post-action that answers Again is run again after a response, as often as it does so. */
  lemma {:induction false} RoundsTrace(n: nat, r: Result)
    ensures Rounds(AgainRounds(n, r).trace, n, r.trace)
  {
    if n == 0 {
      assert Rounds(r.trace, 0, r.trace);
    } else {
      hide Rounds;
      RoundsTrace(n - 1, r);
      OneMoreRound(AgainRounds(n - 1, r).trace, n - 1, r.trace);
      RoundAfter(AgainRounds(n - 1, r));
    }
  }

  lemma RoundAfter(r: Result)
    ensures After(RunPost, After(RunResponse, r)).trace == [RunPost, RunResponse] + r.trace
  {
  }

  lemma PostTrace(h: Handlers, status: Status, x: Script)
    requires x.post != Again && status != Again && h.post && status != Forward && Answers(x.post)
    ensures var trace := PostPhase(h, status, x, 0).trace;
            && |trace| == 2 * x.again + 2 && trace[2 * x.again] == RunPost && Suits(trace[2 * x.again + 1], x.post)
            && forall i :: 0 <= i < x.again ==> trace[2 * i] == RunPost && trace[2 * i + 1] == RunResponse
  {
    var tail := After(RunPost, Ending(x.post));
    EndingSuits(x.post);
    PostIs(h, status, x);
    assert |tail.trace| == 2 && tail.trace[0] == RunPost && Suits(tail.trace[1], x.post);
    hide PostPhase;
    hide AgainRounds;
    hide Ending;
    hide Suits;
    hide After;
    RoundsOfTwo(x.again, tail);
  }

  lemma RoundsOfTwo(n: nat, r: Result)
    requires |r.trace| == 2
    ensures var all := AgainRounds(n, r).trace;
            && |all| == 2 * n + 2 && all[2 * n] == r.trace[0] && all[2 * n + 1] == r.trace[1]
            && forall i :: 0 <= i < n ==> all[2 * i] == RunPost && all[2 * i + 1] == RunResponse
  {
    RoundsTrace(n, r);
    hide AgainRounds;
    assert AgainRounds(n, r).trace[2 * n + 0] == r.trace[0];
  }

  lemma PostIs(h: Handlers, status: Status, x: Script)
    requires x.post != Again && status != Again && h.post && status != Forward
    ensures PostPhase(h, status, x, 0) == AgainRounds(x.again, After(RunPost, Ending(x.post)))
  {
    hide AgainRounds;
    hide Ending;
  }

  /** What a dispatch from EXECUTE does, by the handlers' statuses alone. On overflow a task with a worker
      is rejected. A failing pre-action ends it at once. A worker gets the task exactly if there is one
      and the pre-action did not forward. Otherwise the post phase decides. */
  lemma ExecutedMeans(h: Handlers, entry: Status, full: bool, x: Script)
    requires x.post != Again && entry in {None, Ok, Forward, Postpone} && Executed(h, entry, full, x).Finished?
    ensures var r, s := Executed(h, entry, full, x), if h.pre then x.pre else entry;
            if h.worker && full then Last(r) == CheckOverflow && r.status == Busy
            else if h.pre && s in {Error, InternalError, Stop, Drop} then r.status == s && Suits(Last(r), s)
            else if h.worker && !(h.pre && s == Forward) then Last(r) == RunWorker && r.status == s
            else r.status == Settled(h, s, x) && Suits(Last(r), r.status)
  {
    if !(h.worker && full) {
      var s := if h.pre then x.pre else entry;
      ChkPreMeans(h, s, x);
      var r := ChkPre(h, s, x);
      hide ChkPre;
      LastAfter(RunPre, r);
      LastAfter(CheckOverflow, After(RunPre, r));
      hide Suits;
    }
  }

  lemma ChkPreMeans(h: Handlers, s: Status, x: Script)
    requires x.post != Again && ChkPre(h, s, x).Finished?
    ensures var r := ChkPre(h, s, x);
            && r.trace != []
            && if h.pre && s in {Error, InternalError, Stop, Drop} then r.status == s && Suits(Last(r), s)
               else if h.worker && !(h.pre && s == Forward) then Last(r) == RunWorker && r.status == s
               else r.status == Settled(h, s, x) && Suits(Last(r), r.status)
  {
    if s != Again {
      PostMeans(h, s, x);
      var r := PostPhase(h, s, x, 0);
      hide PostPhase;
      hide Settled;
      LastAfter(RunWorker, r);
    }
  }

  /** What a dispatch of a finished job does: Again posts it once more, otherwise the post phase decides. */
  lemma ReturnedMeans(h: Handlers, entry: Status, x: Script)
    requires x.post != Again && h.worker && JobReturned(h, entry, x).Finished?
    ensures var r := JobReturned(h, entry, x);
            if entry == Again then r.trace == [RunResponse, RunWorker] && r.status == Again
            else r.status == Settled(h, entry, x) && Suits(Last(r), r.status)
  {
    if entry != Again {
      PostMeans(h, entry, x);
      hide PostPhase;
    }
  }

  // ----- forwarding again -----

  /** Handler results for which every dispatch of every handler completes. */
  predicate Safe(x: Script) {
    x.pre !in {None, Again, Busy} && x.post !in {None, Again, Busy}
  }

  lemma SafeIsLegal(h: Handlers, status: Status, full: bool, x: Script)
    requires Safe(x) && (h.pre || h.worker || h.post) && status in {None, Ok, Forward, Postpone}
    ensures ExecuteLegal(h, status, full, x)
  {
  }

  /** The dispatch of an answered task ends with forwarding it once more. */
  predicate ForwardsAgain(h: Handlers, full: bool, x: Script)
    requires x.post != Again
  {
    var r := Executed(h, Forward, full, x);
    r.Finished? && r.trace != [] && r.trace[|r.trace| - 1] == RunForward && r.status == Forward
  }

  lemma ForwardAlways(h: Handlers, full: bool, x: Script)
    requires x.post != Again && !h.pre && !h.worker
    ensures ForwardsAgain(h, full, x)
  {
    assert PostPhase(h, Forward, x, 0) == Finished([RunPost, RunForward], Forward);
    assert ChkPre(h, Forward, x) == Finished([RunWorker, RunPost, RunForward], Forward);
    assert Executed(h, Forward, full, x) == Finished([CheckOverflow, RunPre, RunWorker, RunPost, RunForward], Forward);
  }

  /** A task that was forwarded is forwarded again by every later dispatch, whatever its handlers
      return, if and only if it has neither pre- nor worker-action; otherwise a pre-action that
      fails, or the worker action, gets it past forwarding. */
  lemma ForwardRepeats(h: Handlers, full: bool)
    ensures (forall x :: Safe(x) ==> ForwardsAgain(h, full, x)) <==> !h.pre && !h.worker
  {
    if !h.pre && !h.worker {
      forall x | Safe(x) ensures ForwardsAgain(h, full, x) { ForwardAlways(h, full, x); }
    } else {
      var x := Script(Error, 0, Ok);
      assert Safe(x) && !ForwardsAgain(h, full, x) by {
        assert h.pre ==> ChkPre(h, Error, x) == Finished([RunError], Error);
      }
    }
  }
}
