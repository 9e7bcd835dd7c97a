/** The thread pool as a step system. */
module ThreadPool {

  // The mutex guards the task queue; stop is stored outside it and active is decremented outside
  // it, and waits re-test their predicate at will.

  type Task = nat

  datatype Worker =
    | Looping
    | Running(task: Task)
    | Ran(task: Task)
    | Exited

  datatype SubmitPhase = Entered | NotStopped | Pushed

  /** Who holds the mutex, and how far into its critical section it is. */
  datatype Lock =
    | Free
    | Worker(w: nat, woken: bool)
    | Submit(phase: SubmitPhase)
    | WaitAll

  /** Tasks are numbered in the order in which submit pushed them: accepted of them so far.
      started and finished are the histories of dequeues and of completed task bodies. */
  datatype Pool = Pool(
    lock: Lock,
    tasks: seq<Task>,
    stop: bool,
    active: int,
    workers: seq<Worker>,
    accepted: nat,
    started: seq<Task>,
    finished: seq<Task>)

  datatype Step =
    | WorkerLock(w: nat)
    | WorkerTestWait
    | WorkerDequeue
    | RunTask(w: nat)
    | Decrement(w: nat)
    | SubmitLock
    | SubmitCheck
    | SubmitPush
    | SubmitCount
    | WaitLock
    | WaitTest
    | SetStop

  function Init(numThreads: nat): Pool {
    Pool(Free, [], false, 0, seq(numThreads, _ => Looping), 0, [], [])
  }

  predicate Enabled(s: Pool, step: Step) {
    match step
    case WorkerLock(w) => s.lock.Free? && w < |s.workers| && s.workers[w].Looping?
    case WorkerTestWait => s.lock.Worker? && !s.lock.woken
    case WorkerDequeue => s.lock.Worker? && s.lock.woken && s.lock.w < |s.workers|
    case RunTask(w) => w < |s.workers| && s.workers[w].Running?
    case Decrement(w) => w < |s.workers| && s.workers[w].Ran?
    case SubmitLock => s.lock.Free?
    case SubmitCheck => s.lock == Submit(Entered)
    case SubmitPush => s.lock == Submit(NotStopped)
    case SubmitCount => s.lock == Submit(Pushed)
    case WaitLock => s.lock.Free?
    case WaitTest => s.lock.WaitAll?
    case SetStop => true
  }

  /** The predicate of wait_all. */
  predicate WaitAllReturns(s: Pool) {
    s.tasks == [] && s.active == 0
  }

  function Apply(s: Pool, step: Step): Pool
    requires Enabled(s, step)
  {
    match step
    case WorkerLock(w) => s.(lock := Worker(w, false))
    case WorkerTestWait =>
      if s.stop || s.tasks != [] then s.(lock := Worker(s.lock.w, true)) else s.(lock := Free)
    case WorkerDequeue =>
      var w := s.lock.w;
      if s.stop && s.tasks == [] then s.(lock := Free, workers := s.workers[w := Exited])
      else if s.tasks == [] then s.(lock := Free)
      else s.(lock := Free, tasks := s.tasks[1..], started := s.started + [s.tasks[0]],
              workers := s.workers[w := Running(s.tasks[0])])
    case RunTask(w) =>
      s.(finished := s.finished + [s.workers[w].task], workers := s.workers[w := Ran(s.workers[w].task)])
    case Decrement(w) => s.(active := s.active - 1, workers := s.workers[w := Looping])
    case SubmitLock => s.(lock := Submit(Entered))
    case SubmitCheck => if s.stop then s.(lock := Free) else s.(lock := Submit(NotStopped))
    case SubmitPush => s.(lock := Submit(Pushed), tasks := s.tasks + [s.accepted], accepted := s.accepted + 1)
    case SubmitCount => s.(lock := Free, active := s.active + 1)
    case WaitLock => s.(lock := WaitAll)
    case WaitTest => s.(lock := Free)
    case SetStop => s.(stop := true)
  }

  /** A schedule: a step whose turn comes when it is not enabled does nothing. */
  function Execute(s: Pool, steps: seq<Step>): Pool {
    if steps == [] then s
    else
      var before := Execute(s, steps[..|steps| - 1]);
      var last := steps[|steps| - 1];
      if Enabled(before, last) then Apply(before, last) else before
  }

  predicate Busy(w: Worker) {
    w.Running? || w.Ran?
  }

  /** The number of workers that have dequeued a task and not yet decremented the counter. */
  function BusyCount(ws: seq<Worker>): nat {
    if ws == [] then 0 else BusyCount(ws[..|ws| - 1]) + if Busy(ws[|ws| - 1]) then 1 else 0
  }

  lemma {:induction false} BusyUpdate(ws: seq<Worker>, w: nat, x: Worker)
    requires w < |ws|
    ensures BusyCount(ws[w := x]) ==
      BusyCount(ws) - (if Busy(ws[w]) then 1 else 0) + (if Busy(x) then 1 else 0)
  {
    var ws' := ws[w := x];
    if w < |ws| - 1 {
      BusyUpdate(ws[..|ws| - 1], w, x);
      assert ws'[..|ws| - 1] == ws[..|ws| - 1][w := x];
    } else {
      assert ws'[..|ws| - 1] == ws[..|ws| - 1];
    }
  }

  lemma {:induction false} NoneBusy(ws: seq<Worker>, w: nat)
    requires w < |ws|
    ensures Busy(ws[w]) ==> BusyCount(ws) > 0
  {
    if w < |ws| - 1 {
      NoneBusy(ws[..|ws| - 1], w);
    }
  }

  lemma {:induction false} AllIdle(ws: seq<Worker>)
    requires forall w :: 0 <= w < |ws| ==> !Busy(ws[w])
    ensures BusyCount(ws) == 0
  {
    if ws != [] {
      AllIdle(ws[..|ws| - 1]);
    }
  }

  // ----- The invariant

  ghost predicate SomeoneRuns(ws: seq<Worker>, t: Task) {
    exists w :: 0 <= w < |ws| && ws[w] == Running(t)
  }

  /** Dequeues happen in acceptance order: the started tasks are 0, 1, 2, ... and the queue continues them. */
  ghost predicate FifoInv(s: Pool) {
    && |s.started| + |s.tasks| == s.accepted
    && (forall i :: 0 <= i < |s.started| ==> s.started[i] == i)
    && (forall i :: 0 <= i < |s.tasks| ==> s.tasks[i] == |s.started| + i)
  }

  /** Every started task is either being run or finished; none is run twice. */
  ghost predicate RunInv(s: Pool) {
    && (forall t :: 0 <= t < |s.started| ==> t in s.finished || SomeoneRuns(s.workers, t))
    && (forall t :: t in s.finished ==> t < |s.started|)
    && (forall i, j :: 0 <= i < j < |s.finished| ==> s.finished[i] != s.finished[j])
    && (forall w :: 0 <= w < |s.workers| && s.workers[w].Running? ==>
          s.workers[w].task < |s.started| && s.workers[w].task !in s.finished)
    && (forall v, w :: 0 <= v < w < |s.workers| && s.workers[v].Running? && s.workers[w].Running? ==>
          s.workers[v].task != s.workers[w].task)
  }

  ghost predicate CountInv(s: Pool) {
    s.active + (if s.lock == Submit(Pushed) then 1 else 0) == |s.tasks| + BusyCount(s.workers)
  }

  ghost predicate LockInv(s: Pool) {
    && (s.lock.Worker? ==> s.lock.w < |s.workers| && s.workers[s.lock.w].Looping?)
    && (s.lock.Worker? && s.lock.woken ==> s.stop || s.tasks != [])
    && (s.lock == Submit(Pushed) ==> s.tasks != [])
  }

  /** A worker exits only after stop, with an empty queue, and nothing is accepted from then on. */
  ghost predicate ExitInv(s: Pool) {
    (exists w :: 0 <= w < |s.workers| && s.workers[w].Exited?) ==>
      s.stop && s.tasks == [] && s.lock != Submit(NotStopped) && s.lock != Submit(Pushed)
  }

  ghost predicate Inv(s: Pool) {
    FifoInv(s) && RunInv(s) && CountInv(s) && LockInv(s) && ExitInv(s)
  }

  lemma InitInv(n: nat)
    ensures Inv(Init(n))
  {
    AllIdle(Init(n).workers);
  }

  lemma StepInv(s: Pool, step: Step)
    requires Inv(s) && Enabled(s, step)
    ensures Inv(Apply(s, step))
  {
    match step
    case WorkerDequeue => DequeueInv(s);
    case RunTask(w) => RunTaskInv(s, w);
    case Decrement(w) => DecrementInv(s, w);
    case _ => LockStepInv(s, step);
  }

  /** The steps that touch neither workers nor histories. */
  lemma LockStepInv(s: Pool, step: Step)
    requires Inv(s) && Enabled(s, step) && !step.WorkerDequeue? && !step.RunTask? && !step.Decrement?
    ensures Inv(Apply(s, step))
  {
    hide BusyCount, SomeoneRuns;
  }

  lemma DequeueInv(s: Pool)
    requires Inv(s) && Enabled(s, WorkerDequeue)
    ensures Inv(Apply(s, WorkerDequeue))
  {
    DequeueRuns(s);
    hide RunInv, SomeoneRuns;
    BusyUpdate(s.workers, s.lock.w, Apply(s, WorkerDequeue).workers[s.lock.w]);
  }

  lemma DequeueRuns(s: Pool)
    requires Inv(s) && Enabled(s, WorkerDequeue)
    ensures RunInv(Apply(s, WorkerDequeue))
  {
    hide CountInv, ExitInv, BusyCount;
    var s' := Apply(s, WorkerDequeue);
    var w := s.lock.w;
    assert s.workers[w].Looping?;
    forall t | 0 <= t < |s'.started| ensures t in s'.finished || SomeoneRuns(s'.workers, t) {
      if t < |s.started| {
        StillRuns(s, s', w, t);
      } else {
        assert s'.workers[w] == Running(t);
      }
    }
  }

  lemma StillRuns(s: Pool, s': Pool, w: nat, t: Task)
    requires w < |s.workers| == |s'.workers| && s.workers[w] != Running(t)
    requires s'.workers == s.workers[w := s'.workers[w]]
    requires t in s.finished ==> t in s'.finished
    requires t in s.finished || SomeoneRuns(s.workers, t)
    ensures t in s'.finished || SomeoneRuns(s'.workers, t)
  {
    if SomeoneRuns(s.workers, t) {
      var v :| 0 <= v < |s.workers| && s.workers[v] == Running(t);
      assert s'.workers[v] == Running(t);
    }
  }

  lemma RunTaskInv(s: Pool, w: nat)
    requires Inv(s) && Enabled(s, RunTask(w))
    ensures Inv(Apply(s, RunTask(w)))
  {
    RunTaskRuns(s, w);
    hide RunInv, SomeoneRuns;
    BusyUpdate(s.workers, w, Apply(s, RunTask(w)).workers[w]);
  }

  lemma RunTaskRuns(s: Pool, w: nat)
    requires Inv(s) && Enabled(s, RunTask(w))
    ensures RunInv(Apply(s, RunTask(w)))
  {
    hide CountInv, ExitInv, BusyCount;
    var s' := Apply(s, RunTask(w));
    forall t | 0 <= t < |s'.started| ensures t in s'.finished || SomeoneRuns(s'.workers, t) {
      if t != s.workers[w].task {
        StillRuns(s, s', w, t);
      }
    }
  }

  lemma DecrementInv(s: Pool, w: nat)
    requires Inv(s) && Enabled(s, Decrement(w))
    ensures Inv(Apply(s, Decrement(w)))
  {
    DecrementRuns(s, w);
    hide RunInv, SomeoneRuns;
    BusyUpdate(s.workers, w, Apply(s, Decrement(w)).workers[w]);
  }

  lemma DecrementRuns(s: Pool, w: nat)
    requires Inv(s) && Enabled(s, Decrement(w))
    ensures RunInv(Apply(s, Decrement(w)))
  {
    hide CountInv, ExitInv, BusyCount;
    var s' := Apply(s, Decrement(w));
    forall t | 0 <= t < |s'.started| ensures t in s'.finished || SomeoneRuns(s'.workers, t) {
      StillRuns(s, s', w, t);
    }
  }

  lemma {:induction false} ReachableInv(n: nat, steps: seq<Step>)
    ensures Inv(Execute(Init(n), steps))
  {
    if steps == [] {
      InitInv(n);
    } else {
      ReachableInv(n, steps[..|steps| - 1]);
      var before := Execute(Init(n), steps[..|steps| - 1]);
      if Enabled(before, steps[|steps| - 1]) {
        StepInv(before, steps[|steps| - 1]);
      }
    }
  }

  // ----- What holds in every schedule

  ghost predicate AllAcceptedFinished(s: Pool) {
    forall t :: 0 <= t < s.accepted ==> t in s.finished
  }

  lemma IdleMeansFinished(s: Pool)
    requires Inv(s) && s.tasks == [] && BusyCount(s.workers) == 0
    ensures AllAcceptedFinished(s)
  {
    forall t | 0 <= t < s.accepted ensures t in s.finished {
      if SomeoneRuns(s.workers, t) {
        var w :| 0 <= w < |s.workers| && s.workers[w] == Running(t);
        NoneBusy(s.workers, w);
        assert false;
      }
    }
  }

  /** The counter is the number of tasks queued or in a worker's hands, except in the instant
      between a push and its increment; it never goes below zero. */
  lemma ActiveCountsUnfinished(n: nat, steps: seq<Step>)
    ensures var s := Execute(Init(n), steps);
      && s.active >= 0
      && (s.lock != Submit(Pushed) ==> s.active == |s.tasks| + BusyCount(s.workers))
      && (forall w :: Enabled(s, Decrement(w)) ==> s.active >= 1)
  {
    ReachableInv(n, steps);
    var s := Execute(Init(n), steps);
    forall w | Enabled(s, Decrement(w)) ensures s.active >= 1 {
      NoneBusy(s.workers, w);
    }
  }

  /** Tasks are dequeued in acceptance order, none is finished twice, none finishes that was not
      accepted, and the front of the queue is only ever read when there is one. */
  lemma FirstInFirstOutAtMostOnce(n: nat, steps: seq<Step>)
    ensures var s := Execute(Init(n), steps);
      && |s.started| <= s.accepted && (forall i :: 0 <= i < |s.started| ==> s.started[i] == i)
      && (forall i, j :: 0 <= i < j < |s.finished| ==> s.finished[i] != s.finished[j])
      && (forall t :: t in s.finished ==> t in s.started)
      && (Enabled(s, WorkerDequeue) && !(s.stop && s.tasks == []) ==> s.tasks != [])
  {
    ReachableInv(n, steps);
    var s := Execute(Init(n), steps);
    forall t | t in s.finished ensures t in s.started {
      assert s.started[t] == t;
    }
  }

  /** wait_all can only return when every accepted task has finished. */
  lemma WaitAllMeansFinished(n: nat, steps: seq<Step>)
    ensures var s := Execute(Init(n), steps);
      Enabled(s, WaitTest) && WaitAllReturns(s) ==> AllAcceptedFinished(s)
  {
    ReachableInv(n, steps);
    var s := Execute(Init(n), steps);
    if Enabled(s, WaitTest) && WaitAllReturns(s) {
      IdleMeansFinished(s);
    }
  }

  /** Although stop is set without the mutex, once all workers have exited every task that
      submit accepted has run, and submit accepts no more. */
  lemma ShutdownDrains(n: nat, steps: seq<Step>)
    requires n > 0
    requires var s := Execute(Init(n), steps);
      forall w :: 0 <= w < |s.workers| ==> s.workers[w].Exited?
    ensures var s := Execute(Init(n), steps);
      AllAcceptedFinished(s) && !Enabled(s, SubmitPush) && forall more: seq<Step> ::
        Execute(s, more).accepted == s.accepted
  {
    ReachableInv(n, steps);
    var s := Execute(Init(n), steps);
    WorkersKept(n, steps);
    assert s.workers[0].Exited?;
    AllIdle(s.workers);
    IdleMeansFinished(s);
    forall more: seq<Step> ensures Execute(s, more).accepted == s.accepted {
      NothingAcceptedAfterExit(s, more);
    }
  }

  lemma {:induction false} WorkersKept(n: nat, steps: seq<Step>)
    ensures |Execute(Init(n), steps).workers| == n
  {
    if steps != [] {
      WorkersKept(n, steps[..|steps| - 1]);
    }
  }

  lemma {:induction false} NothingAcceptedAfterExit(s: Pool, more: seq<Step>)
    requires Inv(s) && |s.workers| > 0 && s.workers[0].Exited?
    ensures var t := Execute(s, more);
      Inv(t) && |t.workers| > 0 && t.workers[0].Exited? && t.accepted == s.accepted
  {
    if more != [] {
      NothingAcceptedAfterExit(s, more[..|more| - 1]);
      var before, last := Execute(s, more[..|more| - 1]), more[|more| - 1];
      if Enabled(before, last) {
        StepInv(before, last);
      }
    }
  }
}
