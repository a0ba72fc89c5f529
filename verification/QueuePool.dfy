/** The worker pool: producers, a bounded channel, workers, and stopping. */
module QueuePool {
  import opened Sequences

  const CAPACITY: nat := 1024

  type TaskId = nat
  type StopId = nat

  /**
   * Where a call of enqueue is; each call is a task of its own. Checked is about to enter the second
   * select, Blocked sleeps in it until there is room or the stop channel is closed.
   */
  datatype Producer = Checked | Blocked | Accepted | Refused | Crashed

  datatype Worker = Waiting | Running(task: TaskId) | Exited

  /** Where a call of Stop is; it holds the mutex while Closing or Halfway. */
  datatype Stopper = Closing | Halfway | Draining | Returned(drained: bool)

  datatype State = State(
    calls: map<TaskId, Producer>, waiting: seq<TaskId>, buffer: seq<TaskId>,
    workers: seq<Worker>, stops: map<StopId, Stopper>,
    stopped: bool, stopClosed: bool, jobsClosed: bool,
    accepted: seq<TaskId>, taken: seq<TaskId>, finished: seq<TaskId>)
  {
    /** The mutex is free. */
    ghost predicate Unlocked() {
      forall s :: s in stops ==> !stops[s].Closing? && !stops[s].Halfway?
    }

    predicate AllExited() {
      forall w :: 0 <= w < |workers| ==> workers[w].Exited?
    }
  }

  datatype Step =
    | Check(t: TaskId)
    | Send(t: TaskId)
    | Block(t: TaskId)
    | Refuse(t: TaskId)
    | Crash(t: TaskId)
    | Take(w: nat)
    | Finish(w: nat)
    | Exit(w: nat)
    | BeginStop(s: StopId)
    | CloseStop(s: StopId)
    | CloseJobs(s: StopId)
    | EndStop(s: StopId)

  function Start(n: nat): State {
    State(map[], [], [], seq(n, _ => Waiting), map[], false, false, false, [], [], [])
  }

  predicate At<T(==)>(m: map<nat, T>, k: nat, v: T) {
    k in m && m[k] == v
  }

  /** Closing the stop channel wakes every blocked producer, which is refused. */
  function Woken(calls: map<TaskId, Producer>): map<TaskId, Producer> {
    map t | t in calls :: if calls[t].Blocked? then Refused else calls[t]
  }

  /**
   * Whether a step can be taken; a send needs room, and a closed channel cannot be sent on. The second
   * select blocks only when neither of its cases is ready.
   */
  ghost predicate Can(s: State, step: Step) {
    match step
    case Check(t) => t !in s.calls
    case Send(t) => At(s.calls, t, Checked) && !s.jobsClosed && |s.buffer| < CAPACITY
    case Block(t) => At(s.calls, t, Checked) && !s.stopClosed && !s.jobsClosed && |s.buffer| >= CAPACITY
    case Refuse(t) => At(s.calls, t, Checked) && s.stopClosed
    case Crash(t) => At(s.calls, t, Checked) && s.jobsClosed
    case Take(w) => w < |s.workers| && s.workers[w].Waiting? && s.buffer != []
    case Finish(w) => w < |s.workers| && s.workers[w].Running?
    case Exit(w) => w < |s.workers| && s.workers[w].Waiting? && s.buffer == [] && s.jobsClosed
    case BeginStop(c) => c !in s.stops && s.Unlocked()
    case CloseStop(c) => At(s.stops, c, Closing)
    case CloseJobs(c) => At(s.stops, c, Halfway)
    case EndStop(c) => At(s.stops, c, Draining) && s.AllExited()
  }

  /** The room that a receiver makes goes to the producer that has been blocked longest, in the same step. */
  function Refilled(s: State): State {
    if s.waiting == [] then s
    else
      var t := s.waiting[0];
      s.(waiting := s.waiting[1..], calls := s.calls[t := Accepted], buffer := s.buffer + [t],
         accepted := s.accepted + [t])
  }

  ghost function Do(s: State, step: Step): State
    requires Can(s, step)
  {
    match step
    case Check(t) => s.(calls := s.calls[t := if s.stopClosed then Refused else Checked])
    case Send(t) => s.(calls := s.calls[t := Accepted], buffer := s.buffer + [t], accepted := s.accepted + [t])
    case Block(t) => s.(calls := s.calls[t := Blocked], waiting := s.waiting + [t])
    case Refuse(t) => s.(calls := s.calls[t := Refused])
    case Crash(t) => s.(calls := s.calls[t := Crashed])
    case Take(w) =>
      Refilled(s.(workers := s.workers[w := Running(s.buffer[0])], buffer := s.buffer[1..],
                  taken := s.taken + [s.buffer[0]]))
    case Finish(w) => s.(workers := s.workers[w := Waiting], finished := s.finished + [s.workers[w].task])
    case Exit(w) => s.(workers := s.workers[w := Exited])
    case BeginStop(c) =>
      if s.stopped then s.(stops := s.stops[c := Returned(false)])
      else s.(stopped := true, stops := s.stops[c := Closing])
    case CloseStop(c) =>
      s.(stopClosed := true, stops := s.stops[c := Halfway], calls := Woken(s.calls), waiting := [])
    case CloseJobs(c) => s.(jobsClosed := true, stops := s.stops[c := Draining])
    case EndStop(c) => s.(stops := s.stops[c := Returned(true)])
  }

  /** The state after a run, if every step of it can be taken. */
  ghost function Run(s: State, steps: seq<Step>): Option<State> {
    if steps == [] then Some(s)
    else
      match Run(s, steps[..|steps| - 1])
      case None => None
      case Some(s') => if Can(s', steps[|steps| - 1]) then Some(Do(s', steps[|steps| - 1])) else None
  }

  // ---- what every run keeps ------------------------------------------------------------------------

  /** How many workers run a task. */
  function Busy(ws: seq<Worker>, t: TaskId): nat {
    if ws == [] then 0 else Load(ws[0], t) + Busy(ws[1..], t)
  }

  function Load(w: Worker, t: TaskId): nat {
    if w == Running(t) then 1 else 0
  }

  lemma {:induction false} BusyUpdate(ws: seq<Worker>, i: nat, w: Worker, t: TaskId)
    requires i < |ws|
    ensures Busy(ws[i := w], t) + Load(ws[i], t) == Busy(ws, t) + Load(w, t)
  {
    hide Load;
    if i == 0 {
      assert ws[0 := w][1..] == ws[1..];
    } else {
      BusyUpdate(ws[1..], i - 1, w, t);
      assert ws[i := w][1..] == ws[1..][i - 1 := w];
    }
  }

  lemma {:induction false} NoneBusy(ws: seq<Worker>, t: TaskId)
    requires forall i :: 0 <= i < |ws| ==> !ws[i].Running?
    ensures Busy(ws, t) == 0
  {
    if ws != [] {
      NoneBusy(ws[1..], t);
    }
  }

  function Times(ts: seq<TaskId>, t: TaskId): nat {
    multiset(ts)[t]
  }

  /** Tasks leave the channel in the order they were accepted; what left is running or finished. */
  ghost predicate Conserved(s: State) {
    && s.accepted == s.taken + s.buffer
    && (forall t: nat :: Times(s.taken, t) == Busy(s.workers, t) + Times(s.finished, t))
    && |s.buffer| <= CAPACITY
  }

  /** The blocked producers, each once, in the order they came; the channel is full and not being stopped. */
  ghost predicate Parked(s: State) {
    && Distinct(s.waiting)
    && (forall t: nat :: t in s.waiting <==> At(s.calls, t, Blocked))
    && (s.waiting != [] ==> |s.buffer| >= CAPACITY && !s.stopClosed)
  }

  /** accepted lists exactly the calls that returned nil, each once. */
  ghost predicate Listed(s: State) {
    && Distinct(s.accepted)
    && forall t: nat :: t in s.accepted <==> At(s.calls, t, Accepted)
  }

  /** What a call of Stop has done so far. */
  ghost predicate StopperOk(s: State, p: Stopper) {
    s.stopped &&
    match p
    case Closing => !s.stopClosed
    case Halfway => s.stopClosed && !s.jobsClosed
    case Draining => s.jobsClosed
    case Returned(drained) => drained ==> s.jobsClosed && s.AllExited()
  }

  /** Channels are closed in order, by the one call that came first. */
  ghost predicate Ordered(s: State) {
    && (s.jobsClosed ==> s.stopClosed)
    && (s.stopClosed ==> s.stopped)
    && (forall c :: c in s.stops ==> StopperOk(s, s.stops[c]))
    && (forall c, d :: c in s.stops && d in s.stops ==>
          s.stops[c] == Returned(false) || s.stops[d] == Returned(false) || c == d)
  }

  /** Between the first Stop and the closed channel, the call that closes it is under way. */
  ghost predicate Held(s: State) {
    s.stopped && !s.jobsClosed ==> exists c :: c in s.stops && (s.stops[c].Closing? || s.stops[c].Halfway?)
  }

  /** A worker leaves only when the channel is closed and empty, and it stays so. */
  ghost predicate Drained(s: State) {
    forall w :: 0 <= w < |s.workers| && s.workers[w].Exited? ==> s.jobsClosed && s.buffer == []
  }

  ghost predicate Inv(n: nat, s: State) {
    |s.workers| == n && Conserved(s) && Parked(s) && Listed(s) && Ordered(s) && Held(s) && Drained(s)
  }

  lemma TimesConcat(a: seq<TaskId>, b: seq<TaskId>, t: TaskId)
    ensures Times(a + b, t) == Times(a, t) + Times(b, t)
    ensures forall x :: Times([x], t) == Load(Running(x), t)
  {
  }

  lemma ConservedAt(s: State, step: Step, t: TaskId)
    requires Conserved(s) && Can(s, step)
    ensures var s' := Do(s, step); Times(s'.taken, t) == Busy(s'.workers, t) + Times(s'.finished, t)
  {
    hide Times, Busy;
    match step
    case Take(w) =>
      BusyUpdate(s.workers, w, Running(s.buffer[0]), t);
      TimesConcat(s.taken, [s.buffer[0]], t);
    case Finish(w) =>
      BusyUpdate(s.workers, w, Waiting, t);
      TimesConcat(s.finished, [s.workers[w].task], t);
    case Exit(w) => BusyUpdate(s.workers, w, Exited, t);
    case _ =>
  }

  lemma ConservedStep(s: State, step: Step)
    requires Conserved(s) && Can(s, step)
    ensures Conserved(Do(s, step))
  {
    hide Times, Busy;
    var s' := Do(s, step);
    forall t: nat ensures Times(s'.taken, t) == Busy(s'.workers, t) + Times(s'.finished, t) {
      ConservedAt(s, step, t);
    }
    if step.Send? {
      assert s.taken + (s.buffer + [step.t]) == s.taken + s.buffer + [step.t];
    } else if step.Take? {
      assert s.taken + [s.buffer[0]] + s.buffer[1..] == s.taken + s.buffer;
      if s.waiting != [] {
        var t := s.waiting[0];
        assert s.taken + [s.buffer[0]] + (s.buffer[1..] + [t]) == s.taken + s.buffer + [t];
      }
    }
  }

  lemma ParkedStep(s: State, step: Step)
    requires Parked(s) && Can(s, step)
    ensures Parked(Do(s, step))
  {
    var s' := Do(s, step);
    if step.Block? {
      DistinctSnoc(s.waiting, step.t);
    }
    forall t: nat ensures t in s'.waiting <==> At(s'.calls, t, Blocked) {
      assert t in s.waiting <==> At(s.calls, t, Blocked);
      if step.Take? && s.waiting != [] {
        assert s.waiting == [s.waiting[0]] + s.waiting[1..];
      }
    }
  }

  lemma ListedStep(s: State, step: Step)
    requires Listed(s) && Parked(s) && Can(s, step)
    ensures Listed(Do(s, step))
  {
    var s' := Do(s, step);
    if step.Send? {
      DistinctSnoc(s.accepted, step.t);
    } else if step.Take? && s.waiting != [] {
      assert s.waiting[0] in s.waiting;
      DistinctSnoc(s.accepted, s.waiting[0]);
    }
    forall t: nat ensures t in s'.accepted <==> At(s'.calls, t, Accepted) {
      assert t in s.accepted <==> At(s.calls, t, Accepted);
    }
  }

  lemma OrderedStep(s: State, step: Step)
    requires Ordered(s) && Can(s, step)
    ensures Ordered(Do(s, step))
  {
    var s' := Do(s, step);
    forall c | c in s'.stops ensures StopperOk(s', s'.stops[c]) {
      if c in s.stops {
        assert StopperOk(s, s.stops[c]);
      }
    }
  }

  lemma DrainedStep(s: State, step: Step)
    requires Drained(s) && Parked(s) && Ordered(s) && Can(s, step)
    ensures Drained(Do(s, step))
  {
  }

  lemma HeldStep(s: State, step: Step)
    requires Held(s) && Ordered(s) && Can(s, step)
    ensures Held(Do(s, step))
  {
    var s' := Do(s, step);
    if s'.stopped && !s'.jobsClosed {
      if s.stopped {
        var c :| c in s.stops && (s.stops[c].Closing? || s.stops[c].Halfway?);
        assert StopperOk(s, s.stops[c]);
        assert c in s'.stops && (s'.stops[c].Closing? || s'.stops[c].Halfway?);
      } else {
        assert s'.stops[step.s].Closing?;
      }
    }
  }

  lemma InvStep(n: nat, s: State, step: Step)
    requires Inv(n, s) && Can(s, step)
    ensures Inv(n, Do(s, step))
  {
    hide Conserved, Parked, Listed, Ordered, Held, Drained, Do, Can;
    ConservedStep(s, step);
    ParkedStep(s, step);
    ListedStep(s, step);
    OrderedStep(s, step);
    HeldStep(s, step);
    DrainedStep(s, step);
    WorkersStay(s, step);
  }

  /** Runs can be continued: what holds of a state's future is asked of runs from that state. */
  lemma {:induction false} InvContinues(n: nat, s: State, more: seq<Step>)
    requires Inv(n, s) && Run(s, more).Some?
    ensures Inv(n, Run(s, more).value)
  {
    hide Inv, Do, Can;
    if more != [] {
      InvContinues(n, s, more[..|more| - 1]);
      InvStep(n, Run(s, more[..|more| - 1]).value, more[|more| - 1]);
    }
  }

  lemma InvRun(n: nat, steps: seq<Step>)
    requires Run(Start(n), steps).Some?
    ensures Inv(n, Run(Start(n), steps).value)
  {
    StartInv(n);
    InvContinues(n, Start(n), steps);
  }

  lemma StartInv(n: nat)
    ensures Inv(n, Start(n))
  {
    forall t: nat ensures Busy(Start(n).workers, t) == 0 {
      NoneBusy(Start(n).workers, t);
    }
  }

  lemma WorkersStay(s: State, step: Step)
    requires Can(s, step)
    ensures |Do(s, step).workers| == |s.workers|
  {
  }

  /** In every reachable state the accepted tasks are the buffered, the running and the finished ones. */
  lemma TasksConserved(n: nat, steps: seq<Step>)
    requires Run(Start(n), steps).Some?
    ensures var s := Run(Start(n), steps).value;
      && (forall t: nat :: Times(s.accepted, t) == Times(s.buffer, t) + Busy(s.workers, t) + Times(s.finished, t))
      && s.taken <= s.accepted
      && Distinct(s.accepted) && (forall t: nat :: t in s.accepted <==> At(s.calls, t, Accepted))
  {
    InvRun(n, steps);
    var s := Run(Start(n), steps).value;
    forall t: nat ensures Times(s.accepted, t) == Times(s.buffer, t) + Busy(s.workers, t) + Times(s.finished, t) {
      TimesConcat(s.taken, s.buffer, t);
    }
  }

  /** Every accepted task has been finished exactly once, and nothing else has; no worker is left. */
  ghost predicate AllDone(s: State) {
    && s.buffer == [] && s.AllExited()
    && forall t: nat :: Times(s.finished, t) == if At(s.calls, t, Accepted) then 1 else 0
  }

  lemma ClosedAndExited(n: nat, s: State)
    requires n > 0 && Inv(n, s) && s.AllExited()
    ensures AllDone(s)
  {
    hide Times, Busy;
    assert s.workers[0].Exited?;
    assert s.taken == s.accepted;
    forall t: nat ensures Times(s.finished, t) == if At(s.calls, t, Accepted) then 1 else 0 {
      NoneBusy(s.workers, t);
      OncePerList(s.accepted, t);
    }
  }

  lemma {:induction false} OncePerList(ts: seq<TaskId>, t: TaskId)
    requires Distinct(ts)
    ensures Times(ts, t) == if t in ts then 1 else 0
  {
    if ts != [] {
      var n := |ts| - 1;
      OncePerList(ts[..n], t);
      assert ts == ts[..n] + [ts[n]];
    }
  }

  lemma {:induction false} RunConcat(s: State, xs: seq<Step>, ys: seq<Step>)
    ensures Run(s, xs + ys) == if Run(s, xs).None? then None else Run(Run(s, xs).value, ys)
  {
    hide Can, Do;
    if ys == [] {
      assert xs + ys == xs;
    } else {
      assert (xs + ys)[..|xs + ys| - 1] == xs + ys[..|ys| - 1];
      RunConcat(s, xs, ys[..|ys| - 1]);
    }
  }

  /** The i-th step of a run is the beginning of a call of Stop, and no Stop was called before. */
  ghost predicate FirstStop(n: nat, steps: seq<Step>, i: nat, c: StopId) {
    i < |steps| && steps[i] == BeginStop(c) && Run(Start(n), steps[..i]).Some? && !Run(Start(n), steps[..i]).value.stopped
  }

  /** A call of Stop goes on, and one that waits does not turn into one that does not. */
  ghost predicate StopGoesOn(s: State, s': State, c: StopId) {
    c in s.stops ==> c in s'.stops && (s.stops[c] != Returned(false) ==> s'.stops[c] != Returned(false))
  }

  lemma StopStep(s: State, step: Step, c: StopId)
    requires Can(s, step)
    ensures StopGoesOn(s, Do(s, step), c)
  {
  }

  lemma {:induction false} StopContinues(s: State, more: seq<Step>, c: StopId)
    requires Run(s, more).Some?
    ensures StopGoesOn(s, Run(s, more).value, c)
  {
    hide Can, Do;
    if more != [] {
      StopContinues(s, more[..|more| - 1], c);
      StopStep(Run(s, more[..|more| - 1]).value, more[|more| - 1], c);
    }
  }

  /** A step inside a run. */
  lemma StepAt(n: nat, steps: seq<Step>, i: nat)
    requires Run(Start(n), steps).Some? && i < |steps|
    ensures Run(Start(n), steps[..i]).Some? && Can(Run(Start(n), steps[..i]).value, steps[i])
    ensures Run(Start(n), steps[..i + 1]) == Some(Do(Run(Start(n), steps[..i]).value, steps[i]))
    ensures Run(Start(n), steps) == Run(Do(Run(Start(n), steps[..i]).value, steps[i]), steps[i + 1..])
  {
    hide Can, Do;
    var here := steps[..i + 1];
    assert here[..|here| - 1] == steps[..i] && steps == here + steps[i + 1..];
    RunConcat(Start(n), here, steps[i + 1..]);
  }

  lemma FirstStopStays(n: nat, steps: seq<Step>, i: nat, c: StopId)
    requires FirstStop(n, steps, i, c) && Run(Start(n), steps).Some?
    ensures var s := Run(Start(n), steps).value; c in s.stops && s.stops[c] != Returned(false)
  {
    hide Run;
    StepAt(n, steps, i);
    StopContinues(Do(Run(Start(n), steps[..i]).value, steps[i]), steps[i + 1..], c);
  }

  /**
   * The first call of Stop, once it has returned, has waited until every accepted task was finished,
   * each exactly once; a call that finds the queue stopped returns at once, whatever is left.
   */
  lemma StopDrains(n: nat, steps: seq<Step>, i: nat, c: StopId)
    requires n > 0 && Run(Start(n), steps).Some? && i < |steps| && steps[i] == BeginStop(c)
    ensures Run(Start(n), steps[..i]).Some? && Run(Start(n), steps[..i + 1]).Some?
    ensures c in Run(Start(n), steps[..i + 1]).value.stops && c in Run(Start(n), steps).value.stops
    ensures !Run(Start(n), steps[..i]).value.stopped && Run(Start(n), steps).value.stops[c].Returned? ==>
              AllDone(Run(Start(n), steps).value)
    ensures Run(Start(n), steps[..i]).value.stopped ==>
              var s, s' := Run(Start(n), steps[..i]).value, Run(Start(n), steps[..i + 1]).value;
              s'.stops[c].Returned? && s'.buffer == s.buffer && s'.workers == s.workers && s'.finished == s.finished
  {
    hide Run, AllDone, Conserved, Listed, Held, Drained;
    StepAt(n, steps, i);
    StopContinues(Do(Run(Start(n), steps[..i]).value, steps[i]), steps[i + 1..], c);
    var s := Run(Start(n), steps).value;
    if !Run(Start(n), steps[..i]).value.stopped && s.stops[c].Returned? {
      FirstStopStays(n, steps, i, c);
      InvRun(n, steps);
      assert StopperOk(s, s.stops[c]);
      ClosedAndExited(n, s);
    }
  }

  lemma {:induction false} NothingAfterExit(n: nat, s: State, more: seq<Step>)
    requires n > 0 && Inv(n, s) && s.AllExited() && Run(s, more).Some?
    ensures var s' := Run(s, more).value;
      s'.accepted == s.accepted && s'.finished == s.finished && s'.AllExited() && s'.workers == s.workers
  {
    if more != [] {
      NothingAfterExit(n, s, more[..|more| - 1]);
      InvContinues(n, s, more[..|more| - 1]);
      assert Run(s, more[..|more| - 1]).value.workers[0].Exited?;
    }
  }

  /** Once the first Stop has returned, no task is accepted or finished any more. */
  lemma NothingAfterStop(n: nat, steps: seq<Step>, i: nat, c: StopId, more: seq<Step>)
    requires n > 0 && FirstStop(n, steps, i, c) && Run(Start(n), steps + more).Some? && Run(Start(n), steps).Some?
    requires var s := Run(Start(n), steps).value; c in s.stops && s.stops[c].Returned?
    ensures var s, s' := Run(Start(n), steps).value, Run(Start(n), steps + more).value;
      s'.accepted == s.accepted && s'.finished == s.finished
  {
    var s := Run(Start(n), steps).value;
    InvRun(n, steps);
    FirstStopStays(n, steps, i, c);
    assert StopperOk(s, s.stops[c]);
    RunConcat(Start(n), steps, more);
    NothingAfterExit(n, s, more);
  }

  // ---- Stop returns --------------------------------------------------------------------------------

  /** Steps a worker has left, not counting what is in the channel. */
  function Left(ws: seq<Worker>): nat {
    if ws == [] then 0 else LeftOf(ws[0]) + Left(ws[1..])
  }

  function LeftOf(w: Worker): nat {
    match w
    case Waiting => 1
    case Running(_) => 2
    case Exited => 0
  }

  /** Worker steps until all have left: each task in the channel is taken and finished, each worker leaves. */
  function Work(s: State): nat {
    2 * |s.buffer| + Left(s.workers)
  }

  predicate IsWork(step: Step) {
    step.Take? || step.Finish? || step.Exit?
  }

  function WorkerSteps(steps: seq<Step>): nat {
    if steps == [] then 0
    else WorkerSteps(steps[..|steps| - 1]) + if IsWork(steps[|steps| - 1]) then 1 else 0
  }

  lemma {:induction false} LeftUpdate(ws: seq<Worker>, i: nat, w: Worker)
    requires i < |ws|
    ensures Left(ws[i := w]) + LeftOf(ws[i]) == Left(ws) + LeftOf(w)
  {
    hide LeftOf;
    if i == 0 {
      assert ws[0 := w][1..] == ws[1..];
    } else {
      LeftUpdate(ws[1..], i - 1, w);
      assert ws[i := w][1..] == ws[1..][i - 1 := w];
    }
  }

  lemma WorkStep(s: State, step: Step)
    requires Parked(s) && Ordered(s) && s.jobsClosed && Can(s, step)
    ensures Do(s, step).jobsClosed
    ensures Work(Do(s, step)) + (if IsWork(step) then 1 else 0) == Work(s)
  {
    hide Left;
    match step
    case Take(w) => LeftUpdate(s.workers, w, Running(s.buffer[0]));
    case Finish(w) => LeftUpdate(s.workers, w, Waiting);
    case Exit(w) => LeftUpdate(s.workers, w, Exited);
    case _ =>
  }

  /** With the channel closed, every worker step uses up one of the steps that are left, and nothing adds any. */
  lemma {:induction false} WorkIsUsedUp(n: nat, s: State, more: seq<Step>)
    requires Inv(n, s) && s.jobsClosed && Run(s, more).Some?
    ensures Run(s, more).value.jobsClosed && Work(Run(s, more).value) + WorkerSteps(more) == Work(s)
  {
    hide Can, Do, Work, Conserved, Parked, Listed, Ordered, Held, Drained;
    if more != [] {
      WorkIsUsedUp(n, s, more[..|more| - 1]);
      InvContinues(n, s, more[..|more| - 1]);
      WorkStep(Run(s, more[..|more| - 1]).value, more[|more| - 1]);
    }
  }

  /** With the channel closed, a worker that has not left can take a step. */
  lemma SomeWork(s: State) returns (step: Step)
    requires s.jobsClosed && !s.AllExited()
    ensures IsWork(step) && Can(s, step)
  {
    var w :| 0 <= w < |s.workers| && !s.workers[w].Exited?;
    step := if s.workers[w].Running? then Finish(w) else if s.buffer != [] then Take(w) else Exit(w);
  }

  /** The workers drain the channel and leave. */
  lemma {:induction false} Drain(n: nat, s0: State, steps: seq<Step>, s: State) returns (steps': seq<Step>, s': State)
    requires Run(s0, steps) == Some(s) && Inv(n, s) && s.jobsClosed
    ensures Run(s0, steps') == Some(s') && Inv(n, s') && s'.jobsClosed && s'.AllExited() && s'.stops == s.stops
    decreases Work(s)
  {
    hide Run, Work, Conserved, Parked, Listed, Ordered, Held, Drained;
    steps', s' := steps, s;
    if !s.AllExited() {
      var step := SomeWork(s);
      WorkStep(s, step);
      InvStep(n, s, step);
      steps', s' := Extend(s0, steps, s, step);
      steps', s' := Drain(n, s0, steps', s');
    }
  }

  /** From every reachable state every call of Stop can return: the queue never gets stuck while it stops. */
  lemma StopReturns(n: nat, steps: seq<Step>, c: StopId) returns (more: seq<Step>, s': State)
    requires Run(Start(n), steps).Some? && c in Run(Start(n), steps).value.stops
    ensures Run(Run(Start(n), steps).value, more) == Some(s') && c in s'.stops && s'.stops[c].Returned?
  {
    var s := Run(Start(n), steps).value;
    InvRun(n, steps);
    more, s' := [], s;
    assert Run(s, more) == Some(s);
    hide Run;
    more, s' := CloseBoth(n, s, more, s');
    InvContinues(n, s, more);
    more, s' := Drain(n, s, more, s');
    assert StopperOk(s', s'.stops[c]);
    if s'.stops[c].Draining? {
      more, s' := Extend(s, more, s', EndStop(c));
    }
  }

  /**
   * Once the channel is closed only a bounded number of worker steps is left whatever the schedule, and as
   * long as Stop has to wait one of them can be taken: so Stop returns unless the workers are never run.
   */
  lemma StopIsNear(n: nat, steps: seq<Step>, more: seq<Step>)
    requires Run(Start(n), steps).Some? && Run(Start(n), steps).value.jobsClosed
    requires Run(Run(Start(n), steps).value, more).Some?
    ensures var s, s' := Run(Start(n), steps).value, Run(Run(Start(n), steps).value, more).value;
      && WorkerSteps(more) + Work(s') == Work(s)
      && (!s'.AllExited() ==> exists step :: IsWork(step) && Can(s', step))
  {
    var s := Run(Start(n), steps).value;
    InvRun(n, steps);
    WorkIsUsedUp(n, s, more);
    if !Run(s, more).value.AllExited() {
      var step := SomeWork(Run(s, more).value);
    }
  }

  // ---- sending on the closed channel ---------------------------------------------------------------

  /** Some call of enqueue that has not panicked in s has after more steps. */
  ghost predicate CrashesIn(s: State, more: seq<Step>, t: TaskId) {
    Run(s, more).Some? && At(Run(s, more).value.calls, t, Crashed) && !At(s.calls, t, Crashed)
  }

  lemma {:induction false} Unused(ids: set<nat>) returns (t: nat)
    ensures forall i :: i in ids ==> i < t
  {
    if ids == {} {
      t := 0;
    } else {
      var x :| x in ids;
      var u := Unused(ids - {x});
      t := if x < u then u else x + 1;
      assert forall i :: i in ids ==> i == x || i in ids - {x};
    }
  }

  lemma NoStopper(s: State)
    requires Ordered(s) && !s.stopped
    ensures forall c :: c !in s.stops
  {
  }

  /** From every reachable state the channels can be closed before any producer takes a step of its own. */
  lemma CloseBoth(n: nat, s0: State, steps: seq<Step>, s: State)
    returns (steps': seq<Step>, s': State)
    requires Run(s0, steps) == Some(s) && Inv(n, s)
    ensures Run(s0, steps') == Some(s') && s'.jobsClosed && s'.stops.Keys >= s.stops.Keys
    ensures forall t: nat :: At(s.calls, t, Checked) ==> At(s'.calls, t, Checked)
  {
    hide Run, Conserved, Listed, Drained;
    steps', s' := steps, s;
    if !s'.stopped {
      NoStopper(s);
      steps', s' := Extend(s0, steps', s', BeginStop(0));
      steps', s' := Extend(s0, steps', s', CloseStop(0));
      steps', s' := Extend(s0, steps', s', CloseJobs(0));
    } else if !s'.jobsClosed {
      var c :| c in s'.stops && (s'.stops[c].Closing? || s'.stops[c].Halfway?);
      if s'.stops[c].Closing? {
        steps', s' := Extend(s0, steps', s', CloseStop(c));
      }
      steps', s' := Extend(s0, steps', s', CloseJobs(c));
    }
  }

  /** A producer that has passed the first check, or can still pass it, can be made to panic. */
  lemma CanCrash(n: nat, s: State) returns (more: seq<Step>, t: TaskId)
    requires Inv(n, s) && (!s.stopClosed || exists u :: At(s.calls, u, Checked))
    ensures CrashesIn(s, more, t)
  {
    var s' := s;
    more := [];
    assert Run(s, more) == Some(s);
    if u: nat :| At(s.calls, u, Checked) {
      t := u;
    } else {
      t := Unused(s.calls.Keys);
      more, s' := Extend(s, more, s', Check(t));
      InvStep(n, s, Check(t));
    }
    more, s' := CloseBoth(n, s, more, s');
    more, s' := Extend(s, more, s', Crash(t));
  }

  /** No producer is about to send, and none gets there any more. */
  ghost predicate Quiet(s: State) {
    s.stopClosed && forall u: nat :: !At(s.calls, u, Checked)
  }

  lemma QuietStep(s: State, step: Step, t: TaskId)
    requires Quiet(s) && Can(s, step)
    ensures Quiet(Do(s, step)) && (At(Do(s, step).calls, t, Crashed) ==> At(s.calls, t, Crashed))
  {
    var s' := Do(s, step);
    forall u: nat ensures !At(s'.calls, u, Checked) {
      assert !At(s.calls, u, Checked);
    }
  }

  lemma {:induction false} NoCrash(s: State, more: seq<Step>, t: TaskId)
    requires Quiet(s) && Run(s, more).Some?
    ensures Quiet(Run(s, more).value) && (At(Run(s, more).value.calls, t, Crashed) ==> At(s.calls, t, Crashed))
  {
    hide Can, Do, Quiet, At;
    if more != [] {
      NoCrash(s, more[..|more| - 1], t);
      QuietStep(Run(s, more[..|more| - 1]).value, more[|more| - 1], t);
    }
  }

  /**
   * From a reachable state some producer can still panic on the closed channel exactly if the stop
   * channel is open or a producer has passed the first check and not yet sent.
   */
  lemma CrashIff(n: nat, steps: seq<Step>)
    requires Run(Start(n), steps).Some?
    ensures var s := Run(Start(n), steps).value;
      (exists more, t :: CrashesIn(s, more, t)) <==> !s.stopClosed || exists t :: At(s.calls, t, Checked)
  {
    var s := Run(Start(n), steps).value;
    InvRun(n, steps);
    if !s.stopClosed || exists t :: At(s.calls, t, Checked) {
      var more, t := CanCrash(n, s);
    } else {
      forall more, t ensures !CrashesIn(s, more, t) {
        if Run(s, more).Some? {
          NoCrash(s, more, t);
        }
      }
    }
  }

  /** A call of enqueue that is asleep in the second select, or over without a panic. */
  predicate Safe(s: State, t: TaskId) {
    t in s.calls && (s.calls[t].Blocked? || s.calls[t].Accepted? || s.calls[t].Refused?)
  }

  lemma SafeStep(s: State, step: Step, t: TaskId)
    requires Safe(s, t) && Can(s, step)
    ensures Safe(Do(s, step), t)
  {
  }

  /** A producer that has fallen asleep on the full channel does not panic, however the run goes on. */
  lemma {:induction false} BlockedIsSafe(s: State, more: seq<Step>, t: TaskId)
    requires Safe(s, t) && Run(s, more).Some?
    ensures Safe(Run(s, more).value, t)
  {
    hide Can, Do, Safe;
    if more != [] {
      BlockedIsSafe(s, more[..|more| - 1], t);
      SafeStep(Run(s, more[..|more| - 1]).value, more[|more| - 1], t);
    }
  }

  /** One more step of a run. */
  lemma Extend(s0: State, steps: seq<Step>, s: State, step: Step)
    returns (steps': seq<Step>, s': State)
    requires Run(s0, steps) == Some(s) && Can(s, step)
    ensures Run(s0, steps') == Some(s') && s' == Do(s, step)
  {
    steps', s' := steps + [step], Do(s, step);
    assert steps'[..|steps|] == steps;
  }

  /** A call of Stop that closes both channels. */
  lemma Closes(n: nat, steps: seq<Step>, s: State)
    returns (steps': seq<Step>, s': State)
    requires Run(Start(n), steps) == Some(s) && s.stops == map[] && !s.stopped
    ensures Run(Start(n), steps') == Some(s')
    ensures s' == s.(stopped := true, stopClosed := true, jobsClosed := true, stops := map[0 := Draining],
                     calls := Woken(s.calls), waiting := [])
  {
    hide Run;
    steps', s' := Extend(Start(n), steps, s, BeginStop(0));
    steps', s' := Extend(Start(n), steps', s', CloseStop(0));
    steps', s' := Extend(Start(n), steps', s', CloseJobs(0));
  }

  /** Only the first Stop waits: a second one can return while a task is still in the channel. */
  lemma SecondStopReturnsEarly(n: nat)
    returns (steps: seq<Step>, s: State)
    ensures Run(Start(n), steps) == Some(s)
    ensures At(s.stops, 1, Returned(false)) && s.accepted == s.buffer == [0] && s.finished == []
  {
    s := Start(n);
    steps := [];
    assert Run(Start(n), steps) == Some(s);
    hide Run;
    steps, s := Extend(Start(n), steps, s, Check(0));
    steps, s := Extend(Start(n), steps, s, Send(0));
    steps, s := Closes(n, steps, s);
    steps, s := Extend(Start(n), steps, s, BeginStop(1));
  }

  /**
   * A producer that passed the first check before Stop closes both channels may send on the closed
   * channel, which panics; its task is not accepted.
   */
  lemma LateSendPanics(n: nat)
    returns (steps: seq<Step>, s: State)
    ensures Run(Start(n), steps) == Some(s) && At(s.calls, 0, Crashed) && s.accepted == []
  {
    s := Start(n);
    steps := [];
    assert Run(Start(n), steps) == Some(s);
    hide Run;
    steps, s := Extend(Start(n), steps, s, Check(0));
    steps, s := Closes(n, steps, s);
    steps, s := Extend(Start(n), steps, s, Crash(0));
  }
}
