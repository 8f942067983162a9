/** The worker-pool executor as a protocol of atomic steps: any number of submitters, any number
    of workers, and one controlling thread. */
module Executor {
  import opened Wrappers

  type TaskId = nat

  datatype Worker = AtHead | Waiting | Running(task: TaskId) | Exited

  /** Where the controlling thread is inside `Stop`: how many workers it has asked to stop, then
      how many it has joined. */
  datatype Control = Open | Asking(asked: nat) | Joining(joined: nat) | Stopped

  /** `drawn` holds ids whose submitter has not yet entered the locked region. */
  datatype State = State(queue: seq<TaskId>, accepting: bool, nextTask: nat, drawn: set<TaskId>,
                         workers: seq<Worker>, stopAsked: seq<bool>, control: Control,
                         accepted: seq<TaskId>, taken: seq<TaskId>, finished: seq<TaskId>)

  function Initial(workerCount: nat): State {
    var n := if workerCount < 1 then 1 else workerCount;
    State([], true, 0, {}, seq(n, _ => AtHead), seq(n, _ => false), Open, [], [], [])
  }

  datatype Step =
    | DrawId
    | Push(id: TaskId)
    | Reject(id: TaskId)
    | CheckStop(i: nat)
    | Take(i: nat)
    | LeaveEmpty(i: nat)
    | Finish(i: nat)
    | BeginStop
    | AskNext
    | JoinNext

  predicate Enabled(s: State, step: Step) {
    |s.workers| == |s.stopAsked| &&
    match step
    case DrawId => true
    case Push(id) => id in s.drawn && s.accepting
    case Reject(id) => id in s.drawn && !s.accepting
    case CheckStop(i) => i < |s.workers| && s.workers[i] == AtHead
    case Take(i) => i < |s.workers| && s.workers[i] == Waiting && s.queue != []
    case LeaveEmpty(i) =>
      i < |s.workers| && s.workers[i] == Waiting && s.queue == [] && (!s.accepting || s.stopAsked[i])
    case Finish(i) => i < |s.workers| && s.workers[i].Running?
    case BeginStop => s.control == Open
    case AskNext => s.control.Asking?
    case JoinNext => s.control.Joining? && (s.control.joined < |s.workers| ==> s.workers[s.control.joined] == Exited)
  }

  function Next(s: State, step: Step): State
    requires Enabled(s, step)
  {
    match step
    case DrawId => s.(nextTask := s.nextTask + 1, drawn := s.drawn + {s.nextTask + 1})
    case Push(id) => s.(queue := s.queue + [id], accepted := s.accepted + [id], drawn := s.drawn - {id})
    case Reject(id) => s.(drawn := s.drawn - {id})
    case CheckStop(i) => s.(workers := s.workers[i := if s.stopAsked[i] then Exited else Waiting])
    case Take(i) =>
      s.(queue := s.queue[1..], taken := s.taken + [s.queue[0]], workers := s.workers[i := Running(s.queue[0])])
    case LeaveEmpty(i) => s.(workers := s.workers[i := Exited])
    case Finish(i) => s.(finished := s.finished + [s.workers[i].task], workers := s.workers[i := AtHead])
    case BeginStop => s.(accepting := false, control := Asking(0))
    case AskNext =>
      var k := s.control.asked;
      if k < |s.workers| then s.(stopAsked := s.stopAsked[k := true], control := Asking(k + 1))
      else s.(control := Joining(0))
    case JoinNext =>
      var k := s.control.joined;
      if k < |s.workers| then s.(control := Joining(k + 1)) else s.(control := Stopped)
  }

  // ---------- conservation ----------

  /** How many workers run the task. */
  function RunningCount(ws: seq<Worker>, id: TaskId): nat {
    if ws == [] then 0 else RunningCount(ws[..|ws| - 1], id) + (if ws[|ws| - 1] == Running(id) then 1 else 0)
  }

  /** Replacing one worker changes how often a task runs by what that worker runs. */
  lemma {:induction false} RunningUpdate(ws: seq<Worker>, i: nat, w: Worker, id: TaskId)
    requires i < |ws|
    ensures RunningCount(ws[i := w], id) + (if ws[i] == Running(id) then 1 else 0) ==
            RunningCount(ws, id) + (if w == Running(id) then 1 else 0)
  {
    var n := |ws| - 1;
    if i < n {
      RunningUpdate(ws[..n], i, w, id);
      assert ws[i := w][..n] == ws[..n][i := w];
    } else {
      assert ws[i := w][..n] == ws[..n];
    }
  }

  lemma {:induction false} NothingRuns(ws: seq<Worker>, id: TaskId)
    requires forall i :: 0 <= i < |ws| ==> !ws[i].Running?
    ensures RunningCount(ws, id) == 0
  {
    if ws != [] {
      NothingRuns(ws[..|ws| - 1], id);
    }
  }

  ghost predicate Distinct(ids: seq<TaskId>) {
    forall i, j :: 0 <= i < j < |ids| ==> ids[i] != ids[j]
  }

  /** Every accepted task is taken or queued, and every taken one is running or finished. */
  ghost predicate Flow(s: State) {
    s.accepted == s.taken + s.queue && forall id :: RunsOrFinished(s, id)
  }

  ghost predicate RunsOrFinished(s: State, id: TaskId) {
    multiset(s.taken)[id] == RunningCount(s.workers, id) + multiset(s.finished)[id]
  }

  /** No id is accepted twice, nor while its submitter is still outside the lock. */
  ghost predicate OnceEach(s: State) {
    && Distinct(s.accepted)
    && (forall id :: id in s.accepted ==> id <= s.nextTask && id !in s.drawn)
    && (forall id :: id in s.drawn ==> id <= s.nextTask)
  }

  ghost predicate Conserved(s: State) {
    Flow(s) && OnceEach(s)
  }

  ghost predicate Lifecycle(s: State) {
    && |s.workers| == |s.stopAsked| > 0
    && (s.accepting <==> s.control == Open)
    && (forall i :: 0 <= i < |s.workers| && s.stopAsked[i] ==> s.control != Open)
    && (s.control.Joining? ==>
          s.control.joined <= |s.workers| && forall i :: 0 <= i < s.control.joined ==> s.workers[i] == Exited)
    && (s.control == Stopped ==> forall i :: 0 <= i < |s.workers| ==> s.workers[i] == Exited)
    && (s.control.Asking? ==> s.control.asked <= |s.workers| && forall i :: 0 <= i < s.control.asked ==> s.stopAsked[i])
    && (s.control.Joining? || s.control == Stopped ==> forall i :: 0 <= i < |s.workers| ==> s.stopAsked[i])
  }

  ghost predicate Inv(s: State) {
    Conserved(s) && Lifecycle(s)
  }

  lemma OneMore(ids: seq<TaskId>, last: TaskId, id: TaskId)
    ensures multiset(ids + [last])[id] == multiset(ids)[id] + (if id == last then 1 else 0)
  {
    assert multiset(ids + [last]) == multiset(ids) + multiset{last};
  }

  lemma TakeKeepsTask(s: State, i: nat, id: TaskId)
    requires RunsOrFinished(s, id) && Enabled(s, Take(i))
    ensures RunsOrFinished(Next(s, Take(i)), id)
  {
    RunningUpdate(s.workers, i, Running(s.queue[0]), id);
    OneMore(s.taken, s.queue[0], id);
  }

  lemma FinishKeepsTask(s: State, i: nat, id: TaskId)
    requires RunsOrFinished(s, id) && Enabled(s, Finish(i))
    ensures RunsOrFinished(Next(s, Finish(i)), id)
  {
    RunningUpdate(s.workers, i, AtHead, id);
    OneMore(s.finished, s.workers[i].task, id);
  }

  lemma StepKeepsTask(s: State, step: Step, id: TaskId)
    requires RunsOrFinished(s, id) && Enabled(s, step)
    ensures RunsOrFinished(Next(s, step), id)
  {
    match step {
      case CheckStop(i) => RunningUpdate(s.workers, i, if s.stopAsked[i] then Exited else Waiting, id);
      case Take(i) => TakeKeepsTask(s, i, id);
      case LeaveEmpty(i) => RunningUpdate(s.workers, i, Exited, id);
      case Finish(i) => FinishKeepsTask(s, i, id);
      case _ =>
    }
  }

  lemma StepKeepsFlow(s: State, step: Step)
    requires Flow(s) && Enabled(s, step)
    ensures Flow(Next(s, step))
  {
    forall id ensures RunsOrFinished(Next(s, step), id) {
      StepKeepsTask(s, step, id);
    }
    match step {
      case Push(id) => assert s.taken + (s.queue + [id]) == s.accepted + [id];
      case Take(i) => assert s.taken + [s.queue[0]] + s.queue[1..] == s.taken + s.queue;
      case _ =>
    }
  }

  lemma StepKeepsOnceEach(s: State, step: Step)
    requires OnceEach(s) && Enabled(s, step)
    ensures OnceEach(Next(s, step))
  {
    if step.Push? {
      assert forall x :: x in s.accepted + [step.id] <==> x in s.accepted || x == step.id;
    }
  }

  lemma StepConserves(s: State, step: Step)
    requires Conserved(s) && Enabled(s, step)
    ensures Conserved(Next(s, step))
  {
    StepKeepsFlow(s, step);
    StepKeepsOnceEach(s, step);
  }

  lemma StepKeepsLifecycle(s: State, step: Step)
    requires Lifecycle(s) && Enabled(s, step)
    ensures Lifecycle(Next(s, step))
    ensures !s.accepting ==> !Next(s, step).accepting && Next(s, step).accepted == s.accepted
  {
  }

  /** Where a run of steps leads, if every step of it is possible. */
  function Run(s: State, steps: seq<Step>): Option<State>
    decreases |steps|
  {
    if steps == [] then Some(s)
    else if Enabled(s, steps[0]) then Run(Next(s, steps[0]), steps[1..])
    else None
  }

  function After(workerCount: nat, steps: seq<Step>): Option<State> {
    Run(Initial(workerCount), steps)
  }

  lemma {:induction false} RunSplits(s: State, first: seq<Step>, second: seq<Step>)
    ensures Run(s, first + second) ==
            match Run(s, first)
            case None => None
            case Some(s') => Run(s', second)
    decreases |first|
  {
    if first == [] {
      assert first + second == second;
    } else {
      assert (first + second)[1..] == first[1..] + second;
      if Enabled(s, first[0]) {
        RunSplits(Next(s, first[0]), first[1..], second);
      }
    }
  }

  lemma {:induction false} RunKeepsInv(s: State, steps: seq<Step>)
    requires Inv(s) && Run(s, steps).Some?
    ensures Inv(Run(s, steps).value)
    ensures !s.accepting ==> !Run(s, steps).value.accepting && Run(s, steps).value.accepted == s.accepted
    decreases |steps|
  {
    if steps != [] {
      StepConserves(s, steps[0]);
      StepKeepsLifecycle(s, steps[0]);
      RunKeepsInv(Next(s, steps[0]), steps[1..]);
    }
  }

  lemma InitialKeepsInv(workerCount: nat)
    ensures Inv(Initial(workerCount))
  {
    var s := Initial(workerCount);
    forall id ensures RunsOrFinished(s, id) {
      NothingRuns(s.workers, id);
    }
  }

  lemma EveryRunKeepsInv(workerCount: nat, steps: seq<Step>)
    requires After(workerCount, steps).Some?
    ensures Inv(After(workerCount, steps).value)
  {
    InitialKeepsInv(workerCount);
    RunKeepsInv(Initial(workerCount), steps);
  }

  /** For every interleaving and any number of workers: tasks are taken in accept order, each
      once, and every taken task is at all times either running on exactly one worker or finished
      exactly once. */
  lemma TasksAreConserved(workerCount: nat, steps: seq<Step>)
    requires After(workerCount, steps).Some?
    ensures var s := After(workerCount, steps).value;
            && s.accepted == s.taken + s.queue && Distinct(s.accepted)
            && (forall id :: multiset(s.taken)[id] == RunningCount(s.workers, id) + multiset(s.finished)[id])
            && (forall id :: id in s.taken ==> RunningCount(s.workers, id) + multiset(s.finished)[id] == 1)
  {
    EveryRunKeepsInv(workerCount, steps);
    var s := After(workerCount, steps).value;
    forall id ensures multiset(s.taken)[id] == RunningCount(s.workers, id) + multiset(s.finished)[id] {
      assert RunsOrFinished(s, id);
    }
    forall id | id in s.taken ensures multiset(s.taken)[id] == 1 {
      assert Distinct(s.taken) by {
        assert forall i :: 0 <= i < |s.taken| ==> s.accepted[i] == s.taken[i];
      }
      DistinctCountsOnce(s.taken, id);
    }
  }

  lemma {:induction false} DistinctCountsOnce(ids: seq<TaskId>, id: TaskId)
    requires Distinct(ids) && id in ids
    ensures multiset(ids)[id] == 1
  {
    var last := |ids| - 1;
    assert ids == ids[..last] + [ids[last]];
    if ids[last] != id {
      DistinctCountsOnce(ids[..last], id);
    }
  }

  /** When `Stop` has returned nothing runs, and the accepted tasks are the finished ones and
      those still queued. */
  lemma StoppedExecutor(workerCount: nat, steps: seq<Step>)
    requires After(workerCount, steps).Some? && After(workerCount, steps).value.control == Stopped
    ensures var s := After(workerCount, steps).value;
            && (forall id :: RunningCount(s.workers, id) == 0) && !s.accepting
            && multiset(s.accepted) == multiset(s.finished) + multiset(s.queue)
            && multiset(s.taken) == multiset(s.finished)
  {
    EveryRunKeepsInv(workerCount, steps);
    var s := After(workerCount, steps).value;
    forall id ensures RunningCount(s.workers, id) == 0 && multiset(s.taken)[id] == multiset(s.finished)[id] {
      assert RunsOrFinished(s, id);
      NothingRuns(s.workers, id);
    }
    assert multiset(s.taken) == multiset(s.finished);
  }

  lemma NothingAcceptedAfterStop(workerCount: nat, steps: seq<Step>, k: nat)
    requires k <= |steps| && After(workerCount, steps).Some?
    ensures After(workerCount, steps[..k]).Some?
    ensures !After(workerCount, steps[..k]).value.accepting ==>
              After(workerCount, steps).value.accepted == After(workerCount, steps[..k]).value.accepted
              && !After(workerCount, steps).value.accepting
  {
    assert steps[..k] + steps[k..] == steps;
    RunSplits(Initial(workerCount), steps[..k], steps[k..]);
    EveryRunKeepsInv(workerCount, steps[..k]);
    RunKeepsInv(After(workerCount, steps[..k]).value, steps[k..]);
  }

  // ---------- stopping ends ----------

  /** A queued task is worth more than a turn of a worker. */
  function WorkerWork(w: Worker): nat {
    match w
    case Running(_) => 5
    case AtHead => 4
    case Waiting => 3
    case Exited => 0
  }

  function WorkersWork(ws: seq<Worker>): nat {
    if ws == [] then 0 else WorkersWork(ws[..|ws| - 1]) + WorkerWork(ws[|ws| - 1])
  }

  lemma {:induction false} WorkersWorkUpdate(ws: seq<Worker>, i: nat, w: Worker)
    requires i < |ws|
    ensures WorkersWork(ws[i := w]) + WorkerWork(ws[i]) == WorkersWork(ws) + WorkerWork(w)
  {
    var n := |ws| - 1;
    if i < n {
      WorkersWorkUpdate(ws[..n], i, w);
      assert ws[i := w][..n] == ws[..n][i := w];
    } else {
      assert ws[i := w][..n] == ws[..n];
    }
  }

  function ControlWork(c: Control, n: nat): int {
    match c
    case Open => 2 * n + 3
    case Asking(k) => 2 * n + 2 - k
    case Joining(k) => n + 1 - k
    case Stopped => 0
  }

  /** How many steps the workers and the stopping thread can still make at most. */
  function StopWork(s: State): int {
    8 * |s.queue| + WorkersWork(s.workers) + ControlWork(s.control, |s.workers|)
  }

  /** A step of a submitter, which may still come too late after `Stop` began. */
  predicate IsSubmitterStep(step: Step) {
    step.DrawId? || step.Push? || step.Reject?
  }

  /** Once nothing is accepted each step of a worker or of the stopping thread uses up work that no
      submitter can give back. */
  lemma StopStepShrinks(s: State, step: Step)
    requires Lifecycle(s) && !s.accepting && Enabled(s, step)
    ensures 0 <= StopWork(Next(s, step))
    ensures if IsSubmitterStep(step) then StopWork(Next(s, step)) == StopWork(s)
            else StopWork(Next(s, step)) < StopWork(s)
  {
    match step {
      case CheckStop(i) => WorkersWorkUpdate(s.workers, i, if s.stopAsked[i] then Exited else Waiting);
      case Take(i) => WorkersWorkUpdate(s.workers, i, Running(s.queue[0]));
      case LeaveEmpty(i) => WorkersWorkUpdate(s.workers, i, Exited);
      case Finish(i) => WorkersWorkUpdate(s.workers, i, AtHead);
      case _ =>
    }
  }

  /** The rest of one asked worker's way to its exit. */
  function WayOut(w: Worker): nat {
    match w
    case Running(_) => 3
    case AtHead => 2
    case Waiting => 5
    case Exited => 0
  }

  /** Once every worker is asked to stop it is never blocked: it can step until it has exited. */
  lemma AskedWorkersCanExit(s: State, i: nat)
    requires Lifecycle(s) && (s.control.Joining? || s.control == Stopped) && i < |s.workers|
    ensures s.workers[i] != Exited ==>
              Enabled(s, CheckStop(i)) || Enabled(s, Take(i)) || Enabled(s, LeaveEmpty(i)) || Enabled(s, Finish(i))
    ensures Enabled(s, CheckStop(i)) ==> WayOut(Next(s, CheckStop(i)).workers[i]) < WayOut(s.workers[i])
    ensures Enabled(s, Take(i)) ==> WayOut(Next(s, Take(i)).workers[i]) < WayOut(s.workers[i])
    ensures Enabled(s, LeaveEmpty(i)) ==> WayOut(Next(s, LeaveEmpty(i)).workers[i]) < WayOut(s.workers[i])
    ensures Enabled(s, Finish(i)) ==> WayOut(Next(s, Finish(i)).workers[i]) < WayOut(s.workers[i])
  {
  }

  lemma StopIsNeverBlocked(s: State)
    requires Lifecycle(s) && !s.accepting && s.control != Stopped
    ensures exists step :: !IsSubmitterStep(step) && Enabled(s, step)
  {
    match s.control {
      case Asking(_) =>
        assert Enabled(s, AskNext);
      case Joining(k) =>
        if k == |s.workers| || s.workers[k] == Exited {
          assert Enabled(s, JoinNext);
        } else {
          AskedWorkersCanExit(s, k);
        }
    }
  }

  function OwnSteps(steps: seq<Step>): nat {
    if steps == [] then 0 else (if IsSubmitterStep(steps[0]) then 0 else 1) + OwnSteps(steps[1..])
  }

  /** `Stop` ends in every interleaving: from the moment nothing is accepted, whatever submitters do,
      the workers and the stopping thread make a bounded number of steps, and until `Stop` returns one
      of them can make the next. */
  lemma {:induction false} StopEnds(s: State, steps: seq<Step>)
    requires Inv(s) && !s.accepting && Run(s, steps).Some?
    ensures OwnSteps(steps) <= StopWork(s)
    ensures OwnSteps(steps) + StopWork(Run(s, steps).value) <= StopWork(s)
    ensures Run(s, steps).value.control != Stopped ==>
              exists step :: !IsSubmitterStep(step) && Enabled(Run(s, steps).value, step)
    decreases |steps|
  {
    if steps == [] {
      if s.control != Stopped {
        StopIsNeverBlocked(s);
      }
    } else {
      StopStepShrinks(s, steps[0]);
      StepConserves(s, steps[0]);
      StepKeepsLifecycle(s, steps[0]);
      StopEnds(Next(s, steps[0]), steps[1..]);
    }
  }

  // ---------- what stopping leaves behind ----------

  function Waiters(ws: seq<Worker>): nat {
    if ws == [] then 0 else Waiters(ws[..|ws| - 1]) + (if ws[|ws| - 1] == Waiting then 1 else 0)
  }

  lemma {:induction false} WaitersUpdate(ws: seq<Worker>, i: nat, w: Worker)
    requires i < |ws|
    ensures Waiters(ws[i := w]) + (if ws[i] == Waiting then 1 else 0) == Waiters(ws) + (if w == Waiting then 1 else 0)
  {
    var n := |ws| - 1;
    if i < n {
      WaitersUpdate(ws[..n], i, w);
      assert ws[i := w][..n] == ws[..n][i := w];
    } else {
      assert ws[i := w][..n] == ws[..n];
    }
  }

  lemma {:induction false} NobodyWaits(ws: seq<Worker>)
    requires forall i :: 0 <= i < |ws| ==> ws[i] == Exited
    ensures Waiters(ws) == 0
  {
    if ws != [] {
      NobodyWaits(ws[..|ws| - 1]);
    }
  }

  /** The queued tasks beyond one for each worker already past its stop check. */
  function Unclaimed(s: State): nat {
    if |s.queue| <= Waiters(s.workers) then 0 else |s.queue| - Waiters(s.workers)
  }

  lemma StepKeepsUnclaimed(s: State, step: Step)
    requires !s.accepting && Enabled(s, step)
    ensures Unclaimed(Next(s, step)) <= Unclaimed(s)
  {
    match step {
      case CheckStop(i) => WaitersUpdate(s.workers, i, if s.stopAsked[i] then Exited else Waiting);
      case Take(i) => WaitersUpdate(s.workers, i, Running(s.queue[0]));
      case LeaveEmpty(i) => WaitersUpdate(s.workers, i, Exited);
      case Finish(i) => WaitersUpdate(s.workers, i, AtHead);
      case _ =>
    }
  }

  lemma {:induction false} RunKeepsUnclaimed(s: State, steps: seq<Step>)
    requires Inv(s) && !s.accepting && Run(s, steps).Some?
    ensures Unclaimed(Run(s, steps).value) <= Unclaimed(s)
    decreases |steps|
  {
    if steps != [] {
      StepKeepsUnclaimed(s, steps[0]);
      StepConserves(s, steps[0]);
      StepKeepsLifecycle(s, steps[0]);
      RunKeepsUnclaimed(Next(s, steps[0]), steps[1..]);
    }
  }

  lemma StoppedUnclaimed(s: State)
    requires Inv(s) && s.control == Stopped
    ensures Unclaimed(s) == |s.queue|
  {
    NobodyWaits(s.workers);
  }

  /** The slowest way to stop: ask every worker first, then let each in turn run to its exit. */
  function SlowStep(s: State): Step
    requires Lifecycle(s) && (s.control.Asking? || s.control.Joining?)
  {
    if s.control.Asking? then AskNext
    else
      var k := s.control.joined;
      if k == |s.workers| then JoinNext
      else match s.workers[k]
        case AtHead => CheckStop(k)
        case Waiting => if s.queue == [] then LeaveEmpty(k) else Take(k)
        case Running(_) => Finish(k)
        case Exited => JoinNext
  }

  lemma SlowStepKeepsUnclaimed(s: State)
    requires Lifecycle(s) && (s.control.Asking? || s.control.Joining?)
    ensures Enabled(s, SlowStep(s)) && Unclaimed(Next(s, SlowStep(s))) == Unclaimed(s)
  {
    match SlowStep(s) {
      case CheckStop(i) => WaitersUpdate(s.workers, i, Exited);
      case Take(i) => WaitersUpdate(s.workers, i, Running(s.queue[0]));
      case LeaveEmpty(i) => WaitersUpdate(s.workers, i, Exited);
      case Finish(i) => WaitersUpdate(s.workers, i, AtHead);
      case _ =>
    }
  }

  /** The slowest way to stop reaches the end and leaves every unclaimed task behind. */
  lemma {:induction false} SlowStop(s: State) returns (steps: seq<Step>)
    requires Inv(s) && s.control != Open
    ensures Run(s, steps).Some? && Run(s, steps).value.control == Stopped
    ensures |Run(s, steps).value.queue| == Unclaimed(s)
    decreases StopWork(s)
  {
    if s.control == Stopped {
      StoppedUnclaimed(s);
      return [];
    }
    var step := SlowStep(s);
    SlowStepKeepsUnclaimed(s);
    StepConserves(s, step);
    StepKeepsLifecycle(s, step);
    StopStepShrinks(s, step);
    var rest := SlowStop(Next(s, step));
    steps := [step] + rest;
    assert steps[1..] == rest;
  }

  /** A run that takes a closing executor to the end of `Stop`. */
  ghost predicate Stops(s: State, steps: seq<Step>) {
    Run(s, steps).Some? && Run(s, steps).value.control == Stopped
  }

  /** How many accepted tasks `Stop` can leave unrun, told from the moment it is called: never
      more than the queued tasks beyond one for each worker already past its stop check, and in
      some interleaving exactly those. So it drains the queue in every interleaving exactly when
      there are no more queued tasks than such workers. */
  lemma StopDrainsIff(s: State)
    requires Inv(s) && s.control == Open
    ensures forall steps :: Stops(Next(s, BeginStop), steps) ==>
              |Run(Next(s, BeginStop), steps).value.queue| <= Unclaimed(s)
    ensures exists steps :: Stops(Next(s, BeginStop), steps) &&
              |Run(Next(s, BeginStop), steps).value.queue| == Unclaimed(s)
    ensures (forall steps :: Stops(Next(s, BeginStop), steps) ==> Run(Next(s, BeginStop), steps).value.queue == [])
            <==> |s.queue| <= Waiters(s.workers)
  {
    var closed := Next(s, BeginStop);
    StepConserves(s, BeginStop);
    StepKeepsLifecycle(s, BeginStop);
    forall steps | Stops(closed, steps) ensures |Run(closed, steps).value.queue| <= Unclaimed(s) {
      RunKeepsInv(closed, steps);
      RunKeepsUnclaimed(closed, steps);
      StoppedUnclaimed(Run(closed, steps).value);
    }
    var slow := SlowStop(closed);
    assert Stops(closed, slow);
  }

  lemma OneTaskQueued()
    ensures After(1, [DrawId, Push(1)]) == Some(Initial(1).(nextTask := 1, queue := [1], accepted := [1]))
  {
    var s := Initial(1);
    var drawn := s.(nextTask := 1, drawn := {1});
    assert [DrawId, Push(1)][1..] == [Push(1)] && [Push(1)][1..] == [];
    assert Next(s, DrawId) == drawn;
    assert Next(drawn, Push(1)) == s.(nextTask := 1, queue := [1], accepted := [1]);
    assert Run(drawn, [Push(1)]) == Run(Next(drawn, Push(1)), []);
  }

  lemma OnlyTaskIsLeft(s: State, stop: seq<Step>)
    requires Inv(s) && s.accepted == [1] && stop != [] && stop[0] == BeginStop && Run(s, stop).Some?
    requires |Run(s, stop).value.queue| == 1
    ensures Run(s, stop).value.queue == [1]
  {
    StepConserves(s, BeginStop);
    StepKeepsLifecycle(s, BeginStop);
    RunKeepsInv(Next(s, BeginStop), stop[1..]);
    var end := Run(s, stop).value;
    assert end.taken + end.queue == [1];
  }

  /** So, unlike the logger, a stopped executor can leave an accepted task unrun: one task, and a
      worker that has not come back to its stop check. */
  lemma StopMayLeaveTasksPending()
    ensures exists steps ::
              After(1, steps).Some? && After(1, steps).value.control == Stopped && After(1, steps).value.queue == [1]
  {
    OneTaskQueued();
    var s := After(1, [DrawId, Push(1)]).value;
    assert s.workers == [AtHead] && Waiters([AtHead]) == 0;
    EveryRunKeepsInv(1, [DrawId, Push(1)]);
    StopDrainsIff(s);
    var rest :| Stops(Next(s, BeginStop), rest) && |Run(Next(s, BeginStop), rest).value.queue| == 1;
    var end := Run(Next(s, BeginStop), rest).value;
    var stop := [BeginStop] + rest;
    assert stop[1..] == rest && Run(s, stop) == Some(end);
    OnlyTaskIsLeft(s, stop);
    RunSplits(Initial(1), [DrawId, Push(1)], stop);
    assert After(1, [DrawId, Push(1)] + stop) == Some(end);
  }

  // ---------- the class ----------

  class QueueExecutor {
    var queue: seq<TaskId>
    var accepting: bool
    var nextTask: nat
    var drawn: set<TaskId>
    var workers: seq<Worker>
    var stopAsked: seq<bool>
    var control: Control
    ghost var accepted: seq<TaskId>
    ghost var taken: seq<TaskId>
    ghost var finished: seq<TaskId>

    ghost function View(): State
      reads this
    {
      State(queue, accepting, nextTask, drawn, workers, stopAsked, control, accepted, taken, finished)
    }

    constructor (workerCount: nat)
      ensures View() == Initial(workerCount)
      ensures |workers| == if workerCount < 1 then 1 else workerCount
    {
      var n := if workerCount < 1 then 1 else workerCount;
      queue, accepting, nextTask, drawn, control := [], true, 0, {}, Open;
      workers, stopAsked := seq(n, _ => AtHead), seq(n, _ => false);
      accepted, taken, finished := [], [], [];
    }

    /** The id is drawn outside the lock. */
    method DrawTaskId() returns (id: TaskId)
      requires Enabled(View(), DrawId)
      modifies this
      ensures View() == Next(old(View()), DrawId) && id == nextTask
    {
      nextTask := nextTask + 1;
      id := nextTask;
      drawn := drawn + {id};
    }

    /** The locked half of `Submit`: false is the executor-stopped exception. */
    method PushOrReject(id: TaskId) returns (ok: bool)
      requires id in drawn && |workers| == |stopAsked|
      modifies this
      ensures ok == old(accepting)
      ensures View() == Next(old(View()), if ok then Push(id) else Reject(id))
      ensures queue == if ok then old(queue) + [id] else old(queue)
      ensures accepted == if ok then old(accepted) + [id] else old(accepted)
    {
      drawn := drawn - {id};
      if !accepting {
        return false;
      }
      queue := queue + [id];
      accepted := accepted + [id];
      return true;
    }

    /** One turn of worker `i` up to its next task: the stop check, then the locked region. The
        wait between them ends only when there is a task or a reason to leave. */
    method TurnOf(i: nat) returns (task: Option<TaskId>)
      requires |workers| == |stopAsked| && i < |workers| && workers[i] == AtHead
      requires queue != [] || !accepting || stopAsked[i]
      modifies this
      ensures old(stopAsked[i]) ==> task == None && View() == Next(old(View()), CheckStop(i))
      ensures !old(stopAsked[i]) ==>
                var waiting := Next(old(View()), CheckStop(i));
                if old(queue) == [] then task == None && View() == Next(waiting, LeaveEmpty(i))
                else task == Some(old(queue)[0]) && View() == Next(waiting, Take(i))
      ensures task.Some? ==> old(queue) == [task.value] + queue && workers == old(workers)[i := Running(task.value)]
      ensures task.None? ==> queue == old(queue) && workers == old(workers)[i := Exited]
    {
      if stopAsked[i] {
        workers := workers[i := Exited];
        return None;
      }
      if queue == [] {
        workers := workers[i := Exited];
        return None;
      }
      var item := queue[0];
      queue := queue[1..];
      taken := taken + [item];
      workers := workers[i := Running(item)];
      return Some(item);
    }

    method FinishTask(i: nat)
      requires Enabled(View(), Finish(i))
      modifies this
      ensures View() == Next(old(View()), Finish(i))
    {
      finished := finished + [workers[i].task];
      workers := workers[i := AtHead];
    }

    /** The part of `Stop` before the joins: no more tasks, then every worker is asked to stop. */
    method CloseAndAsk()
      requires Lifecycle(View()) && control == Open
      modifies this
      ensures Lifecycle(View()) && control == Joining(0) && !accepting
      ensures forall i :: 0 <= i < |stopAsked| ==> stopAsked[i]
      ensures View() == old(View()).(accepting := false, control := control, stopAsked := stopAsked)
    {
      accepting := false;
      control := Asking(0);
      while control.asked < |workers|
        invariant control.Asking? && Lifecycle(View())
        invariant View() == old(View()).(accepting := false, control := control, stopAsked := stopAsked)
        decreases |workers| - control.asked
      {
        StepKeepsLifecycle(View(), AskNext);
        stopAsked, control := stopAsked[control.asked := true], Asking(control.asked + 1);
      }
      control := Joining(0);
    }
  }
}
