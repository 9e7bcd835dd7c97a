/** Preview jobs that run on the pool and wait there for mesh jobs they submit to the same pool. */
module NestedPreview {

  // When this is free of deadlock, and how much work is left.

  /** A preview of a porcelain with m cracks, or the mesh of crack k of the preview started as number id. */
  datatype Job = Preview(m: nat) | Mesh(id: nat, k: nat)

  /** Building: k of the m mesh jobs are submitted. Collecting: the futures of the first g are collected. */
  datatype Worker =
    | Idle
    | Building(id: nat, m: nat, k: nat)
    | Collecting(id: nat, m: nat, g: nat)
    | Meshing(id: nat, k: nat)

  /** started counts the previews started so far, and so numbers the next one; ready holds the meshes
      whose futures have their value. */
  datatype Pool = Pool(queue: seq<Job>, workers: seq<Worker>, ready: set<(nat, nat)>, started: nat)

  /** Whether worker w can move: an idle worker needs a job, a collecting one the future it waits for. */
  predicate CanMove(s: Pool, w: nat) {
    w < |s.workers| &&
    match s.workers[w]
    case Idle => s.queue != []
    case Building(_, _, _) => true
    case Collecting(id, m, g) => g < m ==> (id, g) in s.ready
    case Meshing(_, _) => true
  }

  function StartJob(job: Job, id: nat): Worker {
    match job
    case Preview(m) => Building(id, m, 0)
    case Mesh(id, k) => Meshing(id, k)
  }

  function Move(s: Pool, w: nat): Pool
    requires CanMove(s, w)
  {
    match s.workers[w]
    case Idle =>
      s.(queue := s.queue[1..], workers := s.workers[w := StartJob(s.queue[0], s.started)],
         started := if s.queue[0].Preview? then s.started + 1 else s.started)
    case Building(id, m, k) =>
      if k < m then s.(queue := s.queue + [Mesh(id, k)], workers := s.workers[w := Building(id, m, k + 1)])
      else s.(workers := s.workers[w := Collecting(id, m, 0)])
    case Collecting(id, m, g) =>
      if g < m then s.(workers := s.workers[w := Collecting(id, m, g + 1)])
      else s.(workers := s.workers[w := Idle])
    case Meshing(id, k) =>
      s.(ready := s.ready + {(id, k)}, workers := s.workers[w := Idle])
  }

  /** A request from outside for one more preview. */
  function Request(s: Pool, m: nat): Pool {
    s.(queue := s.queue + [Preview(m)])
  }

  function Init(numWorkers: nat): Pool {
    Pool([], seq(numWorkers, _ => Idle), {}, 0)
  }

  // ----- Counting

  /** 1 for a job or a worker that is a preview which has cracks to wait for. */
  function WaitingJob(j: Job): nat {
    if j.Preview? && j.m > 0 then 1 else 0
  }

  function WaitingWorker(w: Worker): nat {
    if (w.Building? || w.Collecting?) && w.m > 0 then 1 else 0
  }

  function JobCount(q: seq<Job>): nat {
    if q == [] then 0 else JobCount(q[..|q| - 1]) + WaitingJob(q[|q| - 1])
  }

  function WorkerCount(ws: seq<Worker>): nat {
    if ws == [] then 0 else WorkerCount(ws[..|ws| - 1]) + WaitingWorker(ws[|ws| - 1])
  }

  /** Unfinished previews that wait for mesh jobs. */
  function Unfinished(s: Pool): nat {
    JobCount(s.queue) + WorkerCount(s.workers)
  }

  /** Steps a job or worker has still to make, the jobs it will submit included. */
  function JobWork(j: Job): nat {
    match j
    case Preview(m) => 4 * m + 3
    case Mesh(_, _) => 2
  }

  function WorkerWork(w: Worker): int {
    match w
    case Idle => 0
    case Building(_, m, k) => 3 * (m - k) + m + 2
    case Collecting(_, m, g) => m - g + 1
    case Meshing(_, _) => 1
  }

  function QueueWork(q: seq<Job>): nat {
    if q == [] then 0 else QueueWork(q[..|q| - 1]) + JobWork(q[|q| - 1])
  }

  function WorkersWork(ws: seq<Worker>): int {
    if ws == [] then 0 else WorkersWork(ws[..|ws| - 1]) + WorkerWork(ws[|ws| - 1])
  }

  /** The number of worker steps until everything queued and running is done. */
  function Work(s: Pool): int {
    QueueWork(s.queue) + WorkersWork(s.workers)
  }

  lemma {:induction false} WorkersWorkUpdate(ws: seq<Worker>, w: nat, x: Worker)
    requires w < |ws|
    ensures WorkersWork(ws[w := x]) == WorkersWork(ws) - WorkerWork(ws[w]) + WorkerWork(x)
    ensures WorkerCount(ws[w := x]) == WorkerCount(ws) - WaitingWorker(ws[w]) + WaitingWorker(x)
  {
    var ws' := ws[w := x];
    if w < |ws| - 1 {
      WorkersWorkUpdate(ws[..|ws| - 1], w, x);
      assert ws'[..|ws| - 1] == ws[..|ws| - 1][w := x];
    } else {
      assert ws'[..|ws| - 1] == ws[..|ws| - 1];
    }
  }

  lemma QueuePush(q: seq<Job>, j: Job)
    ensures QueueWork(q + [j]) == QueueWork(q) + JobWork(j)
    ensures JobCount(q + [j]) == JobCount(q) + WaitingJob(j)
  {
    assert (q + [j])[..|q|] == q;
  }

  lemma {:induction false} QueuePop(q: seq<Job>)
    requires q != []
    ensures QueueWork(q) == JobWork(q[0]) + QueueWork(q[1..])
    ensures JobCount(q) == WaitingJob(q[0]) + JobCount(q[1..])
  {
    if |q| == 1 {
      assert q[..0] == [] && q[1..] == [];
      assert QueueWork(q[..0]) == 0 && JobCount(q[..0]) == 0;
    } else {
      QueuePop(q[..|q| - 1]);
      assert q[1..][..|q| - 2] == q[..|q| - 1][1..];
    }
  }

  // ----- The invariant

  /** The mesh job k of preview id is queued, being run, or ready. */
  ghost predicate Underway(s: Pool, id: nat, k: nat) {
    || (id, k) in s.ready
    || Mesh(id, k) in s.queue
    || exists w :: 0 <= w < |s.workers| && s.workers[w] == Meshing(id, k)
  }

  ghost predicate WorkerInv(s: Pool, w: nat)
    requires w < |s.workers|
  {
    match s.workers[w]
    case Building(id, m, k) => k <= m && forall j :: 0 <= j < k ==> Underway(s, id, j)
    case Collecting(id, m, g) => g <= m && forall j :: 0 <= j < m ==> Underway(s, id, j)
    case _ => true
  }

  ghost predicate Inv(s: Pool) {
    forall w :: 0 <= w < |s.workers| ==> WorkerInv(s, w)
  }

  /** No step makes a submitted mesh job disappear. */
  lemma StaysUnderway(s: Pool, w: nat, id: nat, k: nat)
    requires CanMove(s, w) && Underway(s, id, k)
    ensures Underway(Move(s, w), id, k)
  {
    var s' := Move(s, w);
    if Mesh(id, k) in s.queue {
      var i :| 0 <= i < |s.queue| && s.queue[i] == Mesh(id, k);
      if s.workers[w].Idle? {
        if i == 0 {
          assert s'.workers[w] == Meshing(id, k);
        } else {
          assert s'.queue[i - 1] == Mesh(id, k);
        }
      } else {
        assert s'.queue[i] == Mesh(id, k);
      }
    } else if (id, k) !in s.ready {
      var v :| 0 <= v < |s.workers| && s.workers[v] == Meshing(id, k);
      assert v != w ==> s'.workers[v] == Meshing(id, k);
    }
  }

  lemma MoveInv(s: Pool, w: nat)
    requires Inv(s) && CanMove(s, w)
    ensures Inv(Move(s, w))
  {
    var s' := Move(s, w);
    assert WorkerInv(s, w);
    forall v | 0 <= v < |s'.workers| ensures WorkerInv(s', v) {
      assert WorkerInv(s, v);
      var x := s'.workers[v];
      if x.Building? || x.Collecting? {
        forall j | 0 <= j < if x.Building? then x.k else x.m ensures Underway(s', x.id, j) {
          if v == w && s.workers[w].Building? && s.workers[w].k < s.workers[w].m && j == s.workers[w].k {
            assert s'.queue[|s.queue|] == Mesh(x.id, j);
          } else {
            StaysUnderway(s, w, x.id, j);
          }
        }
      }
    }
  }

  lemma RequestInv(s: Pool, m: nat)
    requires Inv(s)
    ensures Inv(Request(s, m))
    ensures Unfinished(Request(s, m)) == Unfinished(s) + if m > 0 then 1 else 0
  {
    var s' := Request(s, m);
    QueuePush(s.queue, Preview(m));
    forall i, k | Underway(s, i, k) ensures Underway(s', i, k) {
    }
    forall v | 0 <= v < |s'.workers| ensures WorkerInv(s', v) {
      assert WorkerInv(s, v);
    }
  }

  predicate InPreview(w: Worker) {
    w.Building? || w.Collecting?
  }

  /** Previews in progress have different numbers, below the number of previews started; so no mesh
      of one can stand for a mesh of another. */
  ghost predicate OwnNumbers(s: Pool) {
    && (forall w :: 0 <= w < |s.workers| && InPreview(s.workers[w]) ==> s.workers[w].id < s.started)
    && (forall v, w :: 0 <= v < w < |s.workers| && InPreview(s.workers[v]) && InPreview(s.workers[w]) ==>
          s.workers[v].id != s.workers[w].id)
    && (forall j :: j in s.queue && j.Mesh? ==> j.id < s.started)
    && (forall w :: 0 <= w < |s.workers| && s.workers[w].Meshing? ==> s.workers[w].id < s.started)
    && (forall id, k: nat :: (id, k) in s.ready ==> id < s.started)
  }

  /** Every move keeps the numbers apart, so a preview only ever waits for meshes of its own. */
  lemma MoveKeepsNumbers(s: Pool, w: nat)
    requires OwnNumbers(s) && CanMove(s, w)
    ensures OwnNumbers(Move(s, w))
  {
    var s' := Move(s, w);
    forall j | j in s'.queue && j.Mesh? ensures j.id < s'.started {
      assert j in s.queue || (s.workers[w].Building? && j.id == s.workers[w].id);
    }
    if s.workers[w].Idle? {
      assert s.queue[0] in s.queue;
    }
  }

  /** Every step of every worker does exactly one unit of the remaining work, and never adds a waiting preview. */
  lemma MoveDoesOneUnit(s: Pool, w: nat)
    requires Inv(s) && CanMove(s, w)
    ensures Work(Move(s, w)) == Work(s) - 1
    ensures Unfinished(Move(s, w)) <= Unfinished(s)
  {
    assert WorkerInv(s, w);
    WorkersWorkUpdate(s.workers, w, Move(s, w).workers[w]);
    match s.workers[w]
    case Idle => QueuePop(s.queue);
    case Building(id, m, k) => QueuePush(s.queue, Mesh(id, k));
    case _ =>
  }

  // ----- No deadlock while a worker can be free of waiting previews

  ghost predicate Quiet(s: Pool) {
    s.queue == [] && forall w :: 0 <= w < |s.workers| ==> s.workers[w].Idle?
  }

  lemma {:induction false} AllWaiting(ws: seq<Worker>)
    requires forall w :: 0 <= w < |ws| ==> WaitingWorker(ws[w]) == 1
    ensures WorkerCount(ws) == |ws|
  {
    if ws != [] {
      AllWaiting(ws[..|ws| - 1]);
    }
  }

  lemma QuietMeansNoWork(ws: seq<Worker>)
    requires forall w :: 0 <= w < |ws| ==> ws[w].Idle?
    ensures WorkersWork(ws) == 0
  {
  }

  /** With fewer waiting previews than workers, some worker can move unless all is done. */
  lemma NoDeadlock(s: Pool) returns (w: nat)
    requires Inv(s) && Unfinished(s) < |s.workers| && !Quiet(s)
    ensures CanMove(s, w)
  {
    if forall v :: 0 <= v < |s.workers| ==> WaitingWorker(s.workers[v]) == 1 {
      AllWaiting(s.workers);
      assert false;
    }
    var idle :| 0 <= idle < |s.workers| && WaitingWorker(s.workers[idle]) == 0;
    if CanMove(s, idle) {
      return idle;
    }
    var c :| 0 <= c < |s.workers| && !s.workers[c].Idle?;
    if CanMove(s, c) {
      return c;
    }
    assert s.queue == [] && WorkerInv(s, c);
    var x := s.workers[c];
    assert Underway(s, x.id, x.g);
    w :| 0 <= w < |s.workers| && s.workers[w] == Meshing(x.id, x.g);
  }

  /** A run of worker steps: at each turn the named worker can move. */
  ghost predicate Runs(s: Pool, steps: seq<nat>, t: Pool)
    decreases |steps|
  {
    if steps == [] then s == t
    else CanMove(s, steps[0]) && Runs(Move(s, steps[0]), steps[1..], t)
  }

  lemma {:induction false} RunKeeps(s: Pool, steps: seq<nat>, t: Pool)
    requires Inv(s) && Runs(s, steps, t)
    ensures Inv(t) && Work(t) == Work(s) - |steps| && Unfinished(t) <= Unfinished(s) && |t.workers| == |s.workers|
    decreases |steps|
  {
    if steps != [] {
      MoveInv(s, steps[0]);
      MoveDoesOneUnit(s, steps[0]);
      RunKeeps(Move(s, steps[0]), steps[1..], t);
    }
  }

  lemma {:induction false} WorkNonNegative(ws: seq<Worker>)
    requires forall w :: 0 <= w < |ws| ==> WorkerWork(ws[w]) >= 0
    ensures WorkersWork(ws) >= 0
    ensures forall w :: 0 <= w < |ws| ==> WorkersWork(ws) >= WorkerWork(ws[w])
  {
    if ws != [] {
      WorkNonNegative(ws[..|ws| - 1]);
    }
  }

  lemma InvWorkNonNegative(s: Pool)
    requires Inv(s)
    ensures Work(s) >= 0
    ensures Work(s) == 0 <==> Quiet(s)
  {
    forall w | 0 <= w < |s.workers|
      ensures WorkerWork(s.workers[w]) >= 0
      ensures WorkerWork(s.workers[w]) == 0 <==> s.workers[w].Idle?
    {
      assert WorkerInv(s, w);
    }
    WorkNonNegative(s.workers);
    if s.queue != [] {
      QueuePop(s.queue);
    }
    if Quiet(s) {
      QuietMeansNoWork(s.workers);
    }
  }

  /** Every schedule finishes: with fewer waiting previews than workers a run of worker steps
      can always be continued until it has exactly Work(s) steps, and then everything is done. */
  lemma EveryScheduleCompletes(s: Pool, steps: seq<nat>, t: Pool)
    requires Inv(s) && Unfinished(s) < |s.workers| && Runs(s, steps, t)
    ensures |steps| <= Work(s)
    ensures |steps| == Work(s) <==> Quiet(t)
    ensures |steps| < Work(s) ==> exists w: nat :: CanMove(t, w)
  {
    RunKeeps(s, steps, t);
    InvWorkNonNegative(t);
    if !Quiet(t) {
      var w := NoDeadlock(t);
    }
  }

  // ----- The bound is exact

  ghost predicate Stuck(s: Pool) {
    !Quiet(s) && forall w: nat :: !CanMove(s, w)
  }

  lemma {:induction false} RunsAppend(s: Pool, a: seq<nat>, t: Pool, b: seq<nat>, u: Pool)
    requires Runs(s, a, t) && Runs(t, b, u)
    ensures Runs(s, a + b, u)
    decreases |a|
  {
    if a == [] {
      assert a + b == b;
    } else {
      RunsAppend(Move(s, a[0]), a[1..], t, b, u);
      assert (a + b)[1..] == a[1..] + b;
    }
  }

  lemma RunOne(s: Pool, w: nat)
    requires CanMove(s, w)
    ensures Runs(s, [w], Move(s, w))
  {
    assert [w][1..] == [];
    assert Runs(Move(s, w), [], Move(s, w));
  }

  /** Workers 0 .. b-1 have just started a waiting preview, the others are idle. */
  ghost predicate Claimed(s: Pool, b: nat) {
    && b <= |s.workers| && s.ready == {}
    && (forall w :: 0 <= w < b ==> s.workers[w].Building? && s.workers[w].k == 0 && s.workers[w].m > 0)
    && (forall w :: b <= w < |s.workers| ==> s.workers[w].Idle?)
    && (forall j :: j in s.queue ==> j.Preview?)
  }

  /** If enough waiting previews are queued, idle workers can claim one each, finishing the
      crackless previews in between on the spot. */
  lemma {:induction false} ClaimAll(s: Pool, b: nat) returns (steps: seq<nat>, t: Pool)
    requires Claimed(s, b) && JobCount(s.queue) >= |s.workers| - b
    ensures Runs(s, steps, t) && Claimed(t, |t.workers|) && |t.workers| == |s.workers|
    decreases |s.queue|
  {
    if b == |s.workers| {
      return [], s;
    }
    assert s.queue != [] by {
      assert JobCount([]) == 0;
    }
    var job := s.queue[0];
    assert job in s.queue;
    QueuePop(s.queue);
    var next := Move(s, b);
    assert forall j :: j in next.queue ==> j in s.queue;
    RunOne(s, b);
    if job.m > 0 {
      var rest: seq<nat>;
      rest, t := ClaimAll(next, b + 1);
      steps := [b] + rest;
      RunsAppend(s, [b], next, rest, t);
    } else {
      var collecting := Move(next, b);
      var finished := Move(collecting, b);
      RunOne(next, b);
      RunOne(collecting, b);
      RunsAppend(s, [b], next, [b], collecting);
      RunsAppend(s, [b] + [b], collecting, [b], finished);
      var rest: seq<nat>;
      rest, t := ClaimAll(finished, b);
      steps := [b] + [b] + [b] + rest;
      RunsAppend(s, [b] + [b] + [b], finished, rest, t);
    }
  }

  /** Worker b submits all its mesh jobs and starts to wait for the first. */
  lemma {:induction false} SubmitAll(s: Pool, b: nat) returns (steps: seq<nat>, t: Pool)
    requires b < |s.workers| && s.workers[b].Building? && s.workers[b].k <= s.workers[b].m
    ensures Runs(s, steps, t) && t.ready == s.ready
    ensures t.workers == s.workers[b := Collecting(s.workers[b].id, s.workers[b].m, 0)]
    decreases s.workers[b].m - s.workers[b].k
  {
    var next := Move(s, b);
    RunOne(s, b);
    if s.workers[b].k == s.workers[b].m {
      return [b], next;
    }
    var rest: seq<nat>;
    rest, t := SubmitAll(next, b);
    steps := [b] + rest;
    RunsAppend(s, [b], next, rest, t);
  }

  /** Workers 0 .. b-1 wait for their first mesh, the others have yet to submit theirs. */
  ghost predicate Committed(s: Pool, b: nat) {
    && b <= |s.workers| && s.ready == {}
    && (forall w :: 0 <= w < b ==> s.workers[w].Collecting? && s.workers[w].g == 0 && s.workers[w].m > 0)
    && (forall w :: b <= w < |s.workers| ==> s.workers[w].Building? && s.workers[w].k == 0 && s.workers[w].m > 0)
  }

  lemma {:induction false} CommitAll(s: Pool, b: nat) returns (steps: seq<nat>, t: Pool)
    requires Committed(s, b)
    ensures Runs(s, steps, t) && Committed(t, |t.workers|) && |t.workers| == |s.workers|
    decreases |s.workers| - b
  {
    if b == |s.workers| {
      return [], s;
    }
    var one, next := SubmitAll(s, b);
    var rest: seq<nat>;
    rest, t := CommitAll(next, b + 1);
    steps := one + rest;
    RunsAppend(s, one, next, rest, t);
  }

  /** With at least as many waiting previews queued as there are workers, a deadlock is reachable. */
  lemma DeadlockReachable(queue: seq<Job>, n: nat) returns (steps: seq<nat>, t: Pool)
    requires n > 0 && (forall j :: j in queue ==> j.Preview?) && JobCount(queue) >= n
    ensures Runs(Init(n).(queue := queue), steps, t) && Stuck(t)
  {
    var s := Init(n).(queue := queue);
    var a, claimed := ClaimAll(s, 0);
    assert Committed(claimed, 0);
    var b: seq<nat>;
    b, t := CommitAll(claimed, 0);
    steps := a + b;
    RunsAppend(s, a, claimed, b, t);
    RunKeepsWorkers(s, a, claimed);
    assert t.workers[0].Collecting?;
  }

  lemma {:induction false} RunKeepsWorkers(s: Pool, steps: seq<nat>, t: Pool)
    requires Runs(s, steps, t)
    ensures |t.workers| == |s.workers|
    decreases |steps|
  {
    if steps != [] {
      RunKeepsWorkers(Move(s, steps[0]), steps[1..], t);
    }
  }

  lemma {:induction false} IdleCount(n: nat)
    ensures WorkerCount(seq(n, _ => Idle)) == 0
  {
    var ws := seq(n, _ => Idle);
    if n > 0 {
      IdleCount(n - 1);
      assert ws[..n - 1] == seq(n - 1, _ => Idle);
    }
  }

  ghost predicate CanDeadlock(s: Pool) {
    exists steps: seq<nat>, t: Pool :: Runs(s, steps, t) && Stuck(t)
  }

  /** A pool of n workers given any queue of previews can deadlock exactly when at least n of
      the previews have cracks to wait for. */
  lemma DeadlocksExactlyWhenSaturated(queue: seq<Job>, n: nat)
    requires n > 0 && forall j :: j in queue ==> j.Preview?
    ensures CanDeadlock(Init(n).(queue := queue)) <==> JobCount(queue) >= n
  {
    var s := Init(n).(queue := queue);
    if JobCount(queue) >= n {
      var steps, t := DeadlockReachable(queue, n);
      assert Runs(s, steps, t) && Stuck(t);
    } else {
      IdleCount(n);
      assert Unfinished(s) == JobCount(queue);
      forall steps: seq<nat>, t: Pool | Runs(s, steps, t) ensures !Stuck(t) {
        RunKeeps(s, steps, t);
        if !Quiet(t) {
          var w := NoDeadlock(t);
        }
      }
    }
  }
}
