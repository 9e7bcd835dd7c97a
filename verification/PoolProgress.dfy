/** What the pool can always still do: finish what it accepted, and shut down. */
module PoolProgress {
  import opened ThreadPool

  /** The steps that bring in no task and do not stop the pool. */
  ghost predicate OnlyWork(steps: seq<Step>) {
    forall i :: 0 <= i < |steps| ==> !steps[i].SubmitLock? && !steps[i].SetStop?
  }

  lemma {:induction false} RunsCompose(s: Pool, a: seq<Step>, b: seq<Step>)
    ensures Execute(s, a + b) == Execute(Execute(s, a), b)
  {
    hide Apply, Enabled;
    if b == [] {
      assert a + b == a;
    } else {
      RunsCompose(s, a, b[..|b| - 1]);
      assert (a + b)[..|a + b| - 1] == a + b[..|b| - 1];
    }
  }

  lemma NothingRun(s: Pool)
    ensures Execute(s, []) == s
  {
  }

  /** A step, and a run after it. */
  lemma StepThen(s: Pool, step: Step, rest: seq<Step>)
    requires Inv(s) && Enabled(s, step)
    ensures Execute(s, [step] + rest) == Execute(Apply(s, step), rest) && Inv(Apply(s, step))
  {
    hide Apply, Enabled, Inv;
    StepInv(s, step);
    RunsCompose(s, [step], rest);
    assert [step][..0] == [];
    NothingRun(s);
  }

  // ----- The mutex is always given back

  function HoldersStepsLeft(lock: Lock): nat {
    match lock
    case Free => 0
    case WaitAll => 1
    case Worker(_, woken) => if woken then 1 else 2
    case Submit(Entered) => 3
    case Submit(NotStopped) => 2
    case Submit(Pushed) => 1
  }

  function HoldersStep(lock: Lock): Step {
    match lock
    case Worker(_, woken) => if woken then WorkerDequeue else WorkerTestWait
    case Submit(Entered) => SubmitCheck
    case Submit(NotStopped) => SubmitPush
    case Submit(Pushed) => SubmitCount
    case _ => WaitTest
  }

  lemma HolderGoesOn(s: Pool)
    requires Inv(s) && !s.lock.Free?
    ensures Enabled(s, HoldersStep(s.lock))
    ensures var t := Apply(s, HoldersStep(s.lock));
      HoldersStepsLeft(t.lock) < HoldersStepsLeft(s.lock) && t.stop == s.stop && |t.workers| == |s.workers|
  {
    hide FifoInv, RunInv, CountInv, ExitInv;
  }

  lemma {:induction false} MutexGivenBack(s: Pool) returns (steps: seq<Step>, t: Pool)
    requires Inv(s)
    ensures OnlyWork(steps) && t == Execute(s, steps) && Inv(t) && t.lock.Free?
    ensures t.stop == s.stop && |t.workers| == |s.workers|
    decreases HoldersStepsLeft(s.lock)
  {
    hide Inv, Execute, Apply, Enabled;
    steps, t := [], s;
    NothingRun(s);
    if !s.lock.Free? {
      var step := HoldersStep(s.lock);
      HolderGoesOn(s);
      var rest: seq<Step>;
      StepThen(s, step, []);
      rest, t := MutexGivenBack(Apply(s, step));
      StepThen(s, step, rest);
      steps := [step] + rest;
    }
  }

  // ----- Every worker that has a task finishes it

  /** How many steps the workers have to go until none is busy. */
  function BusySteps(ws: seq<Worker>): nat {
    if ws == [] then 0
    else BusySteps(ws[..|ws| - 1]) + match ws[|ws| - 1] { case Running(_) => 2 case Ran(_) => 1 case _ => 0 }
  }

  lemma {:induction false} BusyStepsFall(ws: seq<Worker>, w: nat, x: Worker)
    requires w < |ws| && ((ws[w].Running? && x.Ran?) || (ws[w].Ran? && x.Looping?))
    ensures BusySteps(ws[w := x]) < BusySteps(ws)
  {
    var ws' := ws[w := x];
    if w < |ws| - 1 {
      BusyStepsFall(ws[..|ws| - 1], w, x);
      assert ws'[..|ws| - 1] == ws[..|ws| - 1][w := x];
    } else {
      assert ws'[..|ws| - 1] == ws[..|ws| - 1];
    }
  }

  /** What a worker's own step, outside the mutex, leaves alone. */
  ghost predicate SameOutside(s: Pool, t: Pool) {
    t.lock == s.lock && t.tasks == s.tasks && t.stop == s.stop && t.accepted == s.accepted
    && |t.workers| == |s.workers|
  }

  lemma BusyGoesOn(s: Pool, w: nat) returns (step: Step)
    requires w < |s.workers| && Busy(s.workers[w])
    ensures Enabled(s, step) && !step.SubmitLock? && !step.SetStop? && SameOutside(s, Apply(s, step))
    ensures BusySteps(Apply(s, step).workers) < BusySteps(s.workers)
  {
    hide BusySteps;
    step := if s.workers[w].Running? then RunTask(w) else Decrement(w);
    BusyStepsFall(s.workers, w, Apply(s, step).workers[w]);
  }

  lemma {:induction false} BusyFinish(s: Pool) returns (steps: seq<Step>, t: Pool)
    requires Inv(s)
    ensures OnlyWork(steps) && t == Execute(s, steps) && Inv(t) && SameOutside(s, t)
    ensures forall w :: 0 <= w < |t.workers| ==> !Busy(t.workers[w])
    decreases BusySteps(s.workers)
  {
    hide Inv, Execute, Apply, Enabled, Busy, BusySteps;
    steps, t := [], s;
    NothingRun(s);
    if w :| 0 <= w < |s.workers| && Busy(s.workers[w]) {
      var step := BusyGoesOn(s, w);
      var rest: seq<Step>;
      StepThen(s, step, []);
      rest, t := BusyFinish(Apply(s, step));
      StepThen(s, step, rest);
      steps := [step] + rest;
    }
  }

  // ----- A free worker takes the next task

  /** Nobody holds the mutex and no worker has a task. */
  ghost predicate Calm(s: Pool) {
    Inv(s) && s.lock.Free? && forall w :: 0 <= w < |s.workers| ==> !Busy(s.workers[w])
  }

  /** A worker that finds a task takes it. */
  lemma TakesTask(s: Pool, w: nat)
    requires Inv(s) && s.lock.Free? && w < |s.workers| && s.workers[w].Looping? && s.tasks != []
    ensures var t := Execute(s, [WorkerLock(w), WorkerTestWait, WorkerDequeue]);
      && Inv(t) && t.lock.Free? && t.stop == s.stop && t.accepted == s.accepted && |t.workers| == |s.workers|
      && t.tasks == s.tasks[1..] && t.workers[w] == Running(s.tasks[0])
  {
    hide Inv, Execute;
    var a := Apply(s, WorkerLock(w));
    StepThen(s, WorkerLock(w), [WorkerTestWait, WorkerDequeue]);
    StepThen(a, WorkerTestWait, [WorkerDequeue]);
    var b := Apply(a, WorkerTestWait);
    StepThen(b, WorkerDequeue, []);
    NothingRun(Apply(b, WorkerDequeue));
    assert [WorkerLock(w)] + [WorkerTestWait, WorkerDequeue] == [WorkerLock(w), WorkerTestWait, WorkerDequeue];
    assert [WorkerTestWait] + [WorkerDequeue] == [WorkerTestWait, WorkerDequeue];
    assert [WorkerDequeue] + [] == [WorkerDequeue];
  }

  lemma NoneExited(s: Pool)
    requires Inv(s) && s.tasks != [] && |s.workers| > 0 && !Busy(s.workers[0])
    ensures s.workers[0].Looping?
  {
    hide FifoInv, RunInv, CountInv, LockInv;
  }

  /** A pool with a worker can always run everything it has accepted. */
  lemma {:induction false} Drain(s: Pool) returns (steps: seq<Step>, t: Pool)
    requires Calm(s) && |s.workers| > 0
    ensures OnlyWork(steps) && t == Execute(s, steps) && Calm(t) && t.tasks == []
    ensures t.stop == s.stop && t.accepted == s.accepted && |t.workers| == |s.workers|
    decreases |s.tasks|
  {
    hide Inv, Execute, Apply, Enabled, Busy;
    steps, t := [], s;
    NothingRun(s);
    if s.tasks != [] {
      NoneExited(s);
      var take := [WorkerLock(0), WorkerTestWait, WorkerDequeue];
      TakesTask(s, 0);
      var run, u := BusyFinish(Execute(s, take));
      var rest: seq<Step>;
      rest, t := Drain(u);
      steps := take + run + rest;
      RunsCompose(s, take, run);
      RunsCompose(s, take + run, rest);
    }
  }

  lemma CalmMeansFinished(s: Pool)
    requires Calm(s) && s.tasks == []
    ensures AllAcceptedFinished(s) && WaitAllReturns(s) && Enabled(s, WaitLock)
  {
    AllIdle(s.workers);
    hide FifoInv, RunInv, LockInv, ExitInv;
    IdleMeansFinished(s);
  }

  lemma {:induction false} Settle(s: Pool) returns (steps: seq<Step>, t: Pool)
    requires Inv(s) && |s.workers| > 0
    ensures OnlyWork(steps) && t == Execute(s, steps) && Calm(t) && t.tasks == []
    ensures t.stop == s.stop && |t.workers| == |s.workers|
  {
    hide Inv, Execute, Busy;
    var a, u := MutexGivenBack(s);
    var b, v := BusyFinish(u);
    var c: seq<Step>;
    c, t := Drain(v);
    steps := a + b + c;
    RunsCompose(s, a, b);
    RunsCompose(s, a + b, c);
  }

  lemma WaiterLooks(s: Pool)
    requires Inv(s) && Enabled(s, WaitLock) && WaitAllReturns(s) && AllAcceptedFinished(s)
    ensures var t := Execute(s, [WaitLock]);
      Enabled(t, WaitTest) && WaitAllReturns(t) && AllAcceptedFinished(t) && t.accepted == s.accepted
  {
    StepThen(s, WaitLock, []);
    NothingRun(Apply(s, WaitLock));
    assert [WaitLock] + [] == [WaitLock];
    hide Execute, Inv;
  }

  /** From every state of every schedule, some run of the threads already inside finishes every task
      that was accepted, and wait_all, looking then, returns. */
  lemma EveryTaskCanFinish(n: nat, steps: seq<Step>) returns (more: seq<Step>)
    requires n > 0
    ensures OnlyWork(more)
    ensures var t := Execute(Init(n), steps + more);
      && t.accepted >= Execute(Init(n), steps).accepted
      && AllAcceptedFinished(t) && Enabled(t, WaitTest) && WaitAllReturns(t)
  {
    ReachableInv(n, steps);
    WorkersKept(n, steps);
    hide Inv, Execute, Calm, AllAcceptedFinished, WaitAllReturns, Enabled;
    var s := Execute(Init(n), steps);
    var work, t := Settle(s);
    CalmMeansFinished(t);
    CalmInv(t);
    WaiterLooks(t);
    more := work + [WaitLock];
    RunsCompose(s, work, [WaitLock]);
    RunsCompose(Init(n), steps, more);
    AcceptedGrows(s, more);
  }

  lemma CalmInv(s: Pool)
    requires Calm(s)
    ensures Inv(s)
  {
  }

  lemma {:induction false} AcceptedGrows(s: Pool, more: seq<Step>)
    ensures Execute(s, more).accepted >= s.accepted
  {
    if more != [] {
      AcceptedGrows(s, more[..|more| - 1]);
    }
  }

  // ----- Submission

  function Submit(): seq<Step> {
    [SubmitLock, SubmitCheck, SubmitPush, SubmitCount]
  }

  function Submits(count: nat): seq<Step> {
    if count == 0 then [] else Submits(count - 1) + Submit()
  }

  /** A pool that is not stopped accepts every task submitted to it. */
  lemma SubmitAccepted(s: Pool)
    requires Inv(s) && s.lock.Free? && !s.stop
    ensures var t := Execute(s, Submit());
      Inv(t) && t.lock.Free? && !t.stop && t.accepted == s.accepted + 1
  {
    hide Inv, Execute;
    var a := Apply(s, SubmitLock);
    StepThen(s, SubmitLock, [SubmitCheck, SubmitPush, SubmitCount]);
    StepThen(a, SubmitCheck, [SubmitPush, SubmitCount]);
    var b := Apply(a, SubmitCheck);
    StepThen(b, SubmitPush, [SubmitCount]);
    var c := Apply(b, SubmitPush);
    StepThen(c, SubmitCount, []);
    NothingRun(Apply(c, SubmitCount));
    assert [SubmitLock] + [SubmitCheck, SubmitPush, SubmitCount] == Submit();
    assert [SubmitCheck] + [SubmitPush, SubmitCount] == [SubmitCheck, SubmitPush, SubmitCount];
    assert [SubmitPush] + [SubmitCount] == [SubmitPush, SubmitCount];
    assert [SubmitCount] + [] == [SubmitCount];
  }

  lemma {:induction false} SubmitsAccepted(n: nat, count: nat)
    ensures var t := Execute(Init(n), Submits(count)); Inv(t) && t.lock.Free? && !t.stop && t.accepted == count
  {
    hide Inv, Apply, Enabled;
    if count == 0 {
      InitInv(n);
      NothingRun(Init(n));
    } else {
      SubmitsAccepted(n, count - 1);
      SubmitAccepted(Execute(Init(n), Submits(count - 1)));
      RunsCompose(Init(n), Submits(count - 1), Submit());
    }
  }

  /** Tasks submitted to a new pool are all accepted and can all be finished. */
  lemma SubmittedCanFinish(n: nat, count: nat) returns (more: seq<Step>)
    requires n > 0
    ensures OnlyWork(more)
    ensures var t := Execute(Init(n), Submits(count) + more);
      t.accepted >= count && forall task: nat :: task < count ==> task in t.finished
  {
    SubmitsAccepted(n, count);
    more := EveryTaskCanFinish(n, Submits(count));
  }

  // ----- Shutdown

  /** With stop set and nothing left to do, a worker that wakes up exits. */
  lemma WorkerExits(s: Pool, w: nat)
    requires Calm(s) && s.tasks == [] && s.stop && w < |s.workers| && s.workers[w].Looping?
    ensures var t := Execute(s, [WorkerLock(w), WorkerTestWait, WorkerDequeue]);
      Calm(t) && t.tasks == [] && t.stop && t.workers == s.workers[w := Exited]
  {
    hide Inv, Execute;
    var a := Apply(s, WorkerLock(w));
    StepThen(s, WorkerLock(w), [WorkerTestWait, WorkerDequeue]);
    StepThen(a, WorkerTestWait, [WorkerDequeue]);
    var b := Apply(a, WorkerTestWait);
    StepThen(b, WorkerDequeue, []);
    NothingRun(Apply(b, WorkerDequeue));
    assert [WorkerLock(w)] + [WorkerTestWait, WorkerDequeue] == [WorkerLock(w), WorkerTestWait, WorkerDequeue];
    assert [WorkerTestWait] + [WorkerDequeue] == [WorkerTestWait, WorkerDequeue];
    assert [WorkerDequeue] + [] == [WorkerDequeue];
  }

  lemma {:induction false} WorkersExit(s: Pool, m: nat) returns (steps: seq<Step>, t: Pool)
    requires Calm(s) && s.tasks == [] && s.stop && m <= |s.workers|
    requires forall w :: m <= w < |s.workers| ==> s.workers[w].Exited?
    ensures OnlyWork(steps) && t == Execute(s, steps)
    ensures forall w :: 0 <= w < |t.workers| ==> t.workers[w].Exited?
    decreases m
  {
    hide Execute, Inv;
    steps, t := [], s;
    NothingRun(s);
    if m > 0 {
      if s.workers[m - 1].Exited? {
        steps, t := WorkersExit(s, m - 1);
      } else {
        var exit := [WorkerLock(m - 1), WorkerTestWait, WorkerDequeue];
        WorkerExits(s, m - 1);
        var rest: seq<Step>;
        rest, t := WorkersExit(Execute(s, exit), m - 1);
        steps := exit + rest;
        RunsCompose(s, exit, rest);
      }
    }
  }

  /** Whenever the pool is stopped, some run finishes every accepted task and lets every worker exit, so
      joining them ends. */
  lemma ShutdownCanFinish(n: nat, steps: seq<Step>) returns (more: seq<Step>)
    requires n > 0
    ensures OnlyWork(more)
    ensures var t := Execute(Init(n), steps + [SetStop] + more);
      AllAcceptedFinished(t) && |t.workers| == n && forall w :: 0 <= w < n ==> t.workers[w].Exited?
  {
    var stopped := steps + [SetStop];
    StopSet(n, steps);
    ReachableInv(n, stopped);
    WorkersKept(n, stopped);
    hide Inv, Execute, Calm, AllAcceptedFinished;
    var a, u := Settle(Execute(Init(n), stopped));
    var b, t := WorkersExit(u, |u.workers|);
    more := a + b;
    RunsCompose(Execute(Init(n), stopped), a, b);
    RunsCompose(Init(n), stopped, more);
    WorkersKept(n, stopped + more);
    ShutdownDrains(n, stopped + more);
  }

  lemma StopSet(n: nat, steps: seq<Step>)
    ensures Execute(Init(n), steps + [SetStop]).stop
  {
    assert (steps + [SetStop])[..|steps|] == steps;
  }
}
