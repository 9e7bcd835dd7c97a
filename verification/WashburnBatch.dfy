/** predict_chunked: the crack list is cut into chunks, pool threads fill one result vector per
    chunk in any order, and the vectors are joined. size_t arithmetic wraps as in the original. */
module WashburnBatch {

  const SIZE_LIMIT := 0x1_0000_0000_0000_0000
  const HALF_LIMIT := 0x8000_0000_0000_0000

  function Wrap(x: int): (r: nat)
    ensures 0 <= x < SIZE_LIMIT ==> r == x
  {
    x % SIZE_LIMIT
  }

  datatype Range = Range(start: nat, end: nat)

  // ----- The plan: which indices each chunk covers

  function Workers(threads: nat, maxParallel: nat): nat {
    if 0 < maxParallel < threads then maxParallel else threads
  }

  function ChunkSize(n: nat, workers: nat, minBatch: nat): nat
    requires workers > 0
  {
    var share := Wrap(n + workers - 1) / workers;
    if minBatch < share then share else minBatch
  }

  function NumChunks(n: nat, chunk: nat): nat
    requires chunk > 0
  {
    Wrap(n + chunk - 1) / chunk
  }

  function ChunkAt(n: nat, chunk: nat, c: nat): Range {
    var start := Wrap(c * chunk);
    var end := Wrap(start + chunk);
    Range(start, if end < n then end else n)
  }

  function Chunks(n: nat, chunk: nat): seq<Range>
    requires chunk > 0
  {
    seq(NumChunks(n, chunk), c requires c >= 0 => ChunkAt(n, chunk, c))
  }

  /** What a vector's length and the number of pool threads can be. */
  predicate SizesFit(n: nat, threads: nat) {
    1 <= n < HALF_LIMIT && 1 <= threads < HALF_LIMIT
  }

  /** Non-empty ranges that follow one another from 0 to n. */
  ghost predicate Partitions(plan: seq<Range>, n: nat) {
    && (forall c :: 0 <= c < |plan| ==> plan[c].start < plan[c].end <= n)
    && (forall c :: 0 < c < |plan| ==> plan[c].start == plan[c - 1].end)
    && (if plan == [] then n == 0 else plan[0].start == 0 && plan[|plan| - 1].end == n)
  }

  lemma CeilingBounds(n: nat, d: nat)
    requires n > 0 && d > 0
    ensures var q := (n + d - 1) / d; q > 0 && (q - 1) * d < n <= q * d && q <= n
  {
    var q := (n + d - 1) / d;
    assert n + d - 1 == q * d + (n + d - 1) % d;
    assert (q - 1) * d == q * d - d;
    Monotone(n, q, d);
    Monotone(1, d, n);
  }

  lemma {:induction false} Monotone(a: int, b: int, d: nat)
    ensures a <= b ==> a * d <= b * d
    ensures a < b ==> a * d + d <= b * d
    decreases if a < b then b - a else 0
  {
    if a < b {
      Monotone(a + 1, b, d);
      assert (a + 1) * d == a * d + d;
    }
  }

  lemma CeilingAtMost(n: nat, d: nat, w: nat)
    requires n > 0 && d > 0 && w > 0 && n <= d * w
    ensures (n + d - 1) / d <= w
  {
    CeilingBounds(n, d);
    assert w * d == d * w;
    Monotone(w, (n + d - 1) / d - 1, d);
  }

  lemma ChunkSizePositive(n: nat, workers: nat, minBatch: nat)
    requires 1 <= n < HALF_LIMIT && 1 <= workers < HALF_LIMIT
    ensures ChunkSize(n, workers, minBatch) > 0
    ensures n <= ChunkSize(n, workers, minBatch) * workers
    ensures ChunkSize(n, workers, minBatch) <= n || ChunkSize(n, workers, minBatch) == minBatch
  {
    CeilingBounds(n, workers);
    var share := (n + workers - 1) / workers;
    Monotone(share, ChunkSize(n, workers, minBatch), workers);
  }

  /** No more chunks than workers, whatever the options. */
  lemma {:induction false} ChunksAtMostWorkers(n: nat, threads: nat, maxParallel: nat, minBatch: nat)
    requires SizesFit(n, threads)
    ensures var w := Workers(threads, maxParallel);
            var chunk := ChunkSize(n, w, minBatch);
            chunk > 0 && |Chunks(n, chunk)| <= w <= threads
            && (maxParallel > 0 ==> |Chunks(n, chunk)| <= maxParallel)
  {
    var w := Workers(threads, maxParallel);
    ChunkSizePositive(n, w, minBatch);
    var chunk := ChunkSize(n, w, minBatch);
    CeilingAtMost(n, chunk, w);
    assert Wrap(n + chunk - 1) <= n + chunk - 1;
    DivisionMonotone(Wrap(n + chunk - 1), n + chunk - 1, chunk);
  }

  lemma DivisionMonotone(a: nat, b: nat, d: nat)
    requires a <= b && d > 0
    ensures a / d <= b / d
  {
    Monotone(b / d, a / d, d);
    assert a == (a / d) * d + a % d;
    assert b == (b / d) * d + b % d;
  }

  lemma ChunkInside(n: nat, chunk: nat, c: nat)
    requires 0 < n && 0 < chunk && n + chunk - 1 < SIZE_LIMIT && c < NumChunks(n, chunk)
    ensures c * chunk < n
    ensures ChunkAt(n, chunk, c).start == c * chunk
    ensures ChunkAt(n, chunk, c).end == if c == NumChunks(n, chunk) - 1 then n else (c + 1) * chunk
    ensures c * chunk < ChunkAt(n, chunk, c).end <= n
  {
    CeilingBounds(n, chunk);
    var q := NumChunks(n, chunk);
    Monotone(c, q - 1, chunk);
    assert (c + 1) * chunk == c * chunk + chunk;
    if c < q - 1 { Monotone(c + 1, q - 1, chunk); } else { assert q * chunk == (c + 1) * chunk; }
  }

  lemma SomeChunk(n: nat, chunk: nat)
    requires 0 < n && 0 < chunk && n + chunk - 1 < SIZE_LIMIT
    ensures NumChunks(n, chunk) > 0
  {
    CeilingBounds(n, chunk);
  }

  lemma {:induction false} ChunksPartition(n: nat, chunk: nat)
    requires 0 < n && 0 < chunk && n + chunk - 1 < SIZE_LIMIT
    ensures Partitions(Chunks(n, chunk), n)
  {
    SomeChunk(n, chunk);
    hide ChunkAt, NumChunks;
    var plan := Chunks(n, chunk);
    forall c | 0 <= c < |plan| ensures plan[c].start < plan[c].end <= n {
      ChunkInside(n, chunk, c);
    }
    forall c | 0 < c < |plan| ensures plan[c].start == plan[c - 1].end {
      ChunkInside(n, chunk, c);
      ChunkInside(n, chunk, c - 1);
    }
    ChunkInside(n, chunk, 0);
    ChunkInside(n, chunk, |plan| - 1);
  }

  lemma NoChunks(n: nat, chunk: nat)
    requires 0 < n < HALF_LIMIT && SIZE_LIMIT - n < chunk < SIZE_LIMIT
    ensures Chunks(n, chunk) == []
  {
    assert Wrap(n + chunk - 1) == n + chunk - 1 - SIZE_LIMIT;
  }

  /** The plan is a partition exactly when min_batch_per_thread leaves room for the rounding; past
      that the sum wraps round and there is no chunk at all. */
  lemma {:induction false} PlanPartitionsExactly(n: nat, threads: nat, maxParallel: nat, minBatch: nat)
    requires SizesFit(n, threads) && minBatch < SIZE_LIMIT
    ensures var chunk := ChunkSize(n, Workers(threads, maxParallel), minBatch);
            chunk > 0
            && (minBatch <= SIZE_LIMIT - n ==> Partitions(Chunks(n, chunk), n))
            && (minBatch > SIZE_LIMIT - n ==> Chunks(n, chunk) == [])
  {
    var w := Workers(threads, maxParallel);
    ChunkSizePositive(n, w, minBatch);
    var chunk := ChunkSize(n, w, minBatch);
    hide ChunkSize, Chunks;
    if minBatch <= SIZE_LIMIT - n {
      ChunksPartition(n, chunk);
    } else {
      NoChunks(n, chunk);
    }
  }

  // ----- The run: pool threads carry the chunks out

  /** One thread's way through one chunk: still queued, at index i, or stopped at index i. */
  datatype Phase = Queued | Running(thread: nat, i: nat) | Finished(i: nat)

  datatype Job<P> = Job(range: Range, phase: Phase, results: seq<P>)

  /** tls holds each pool thread's rotating model index. */
  datatype Batch<P> = Batch(jobs: seq<Job<P>>, tls: seq<nat>, cancelled: bool)

  /** What does not change during a run. blank is a value-initialised prediction. */
  datatype Setup<!K, !C, P> = Setup(
    models: seq<K>,
    cracks: seq<C>,
    predict: (K, C) -> P,
    blank: P,
    enableCancellation: bool)

  datatype Step = Begin(c: nat, t: nat) | Advance(c: nat) | Cancel

  function Start<K, C, P>(setup: Setup<K, C, P>, plan: seq<Range>, tls: seq<nat>): Batch<P> {
    Batch(seq(|plan|, c requires 0 <= c < |plan| => Job(plan[c], Queued, [])), tls, false)
  }

  predicate Idle<P>(b: Batch<P>, t: nat) {
    forall c :: 0 <= c < |b.jobs| ==> !(b.jobs[c].phase.Running? && b.jobs[c].phase.thread == t)
  }

  /** A free thread takes the first queued job; a running job can always go on. */
  predicate Enabled<P>(b: Batch<P>, step: Step) {
    match step
    case Begin(c, t) =>
      && c < |b.jobs| && t < |b.tls| && Idle(b, t)
      && b.jobs[c].phase.Queued? && b.jobs[c].range.start <= b.jobs[c].range.end
      && forall k :: 0 <= k < c ==> !b.jobs[k].phase.Queued?
    case Advance(c) => c < |b.jobs| && b.jobs[c].phase.Running?
    case Cancel => true
  }

  /** The model index safe_predict_single takes, and the index it leaves behind. */
  function Pick(tls: nat, models: nat): nat {
    tls % (if models == 0 then 1 else models)
  }

  function Rotate(tls: nat, models: nat): nat
    requires models > 0
  {
    Wrap(tls + 1) % models
  }

  /** One pass of the chunk loop. */
  function AdvanceJob<K, C, P>(setup: Setup<K, C, P>, b: Batch<P>, c: nat): Batch<P>
    requires Enabled(b, Advance(c)) && setup.models != []
  {
    var job := b.jobs[c];
    var t, i := job.phase.thread, job.phase.i;
    var k := i - job.range.start;
    if i >= job.range.end || (setup.enableCancellation && b.cancelled) then
      b.(jobs := b.jobs[c := job.(phase := Finished(i))])
    else if i < |setup.cracks| && t < |b.tls| && 0 <= k < |job.results| then
      var p := setup.predict(setup.models[Pick(b.tls[t], |setup.models|)], setup.cracks[i]);
      b.(jobs := b.jobs[c := job.(phase := Running(t, i + 1), results := job.results[k := p])],
         tls := b.tls[t := Rotate(b.tls[t], |setup.models|)])
    else b
  }

  function Apply<K, C, P>(setup: Setup<K, C, P>, b: Batch<P>, step: Step): Batch<P>
    requires Enabled(b, step) && setup.models != []
  {
    match step
    case Begin(c, t) =>
      var r := b.jobs[c].range;
      b.(jobs := b.jobs[c := Job(r, Running(t, r.start), seq(r.end - r.start, _ => setup.blank))])
    case Advance(c) => AdvanceJob(setup, b, c)
    case Cancel => b.(cancelled := true)
  }

  ghost predicate Runs<K(!new), C(!new), P(!new)>(
    setup: Setup<K, C, P>, first: Batch<P>, steps: seq<Step>, last: Batch<P>)
    decreases |steps|
  {
    if steps == [] then last == first
    else exists mid :: Leads(setup, first, steps[0], mid) && Runs(setup, mid, steps[1..], last)
  }

  predicate Leads<K, C, P(==)>(setup: Setup<K, C, P>, b: Batch<P>, step: Step, next: Batch<P>) {
    Enabled(b, step) && setup.models != [] && next == Apply(setup, b, step)
  }

  predicate Over<P>(b: Batch<P>) {
    forall c :: 0 <= c < |b.jobs| ==> b.jobs[c].phase.Finished?
  }

  /** The joined chunk vectors, in chunk order. */
  function Gathered<P>(jobs: seq<Job<P>>): seq<P> {
    if jobs == [] then [] else Gathered(jobs[..|jobs| - 1]) + jobs[|jobs| - 1].results
  }

  /** The vector of a chunk whose loop is at index i. */
  function Filled<K, C, P>(setup: Setup<K, C, P>, r: Range, i: nat): seq<P>
    requires setup.models != [] && r.start <= i <= r.end <= |setup.cracks|
  {
    seq(r.end - r.start, k requires 0 <= k < r.end - r.start =>
      if r.start + k < i then setup.predict(setup.models[0], setup.cracks[r.start + k]) else setup.blank)
  }

  /** Every model is configured alike. */
  ghost predicate SameModels<K>(models: seq<K>) {
    models != [] && forall k :: 0 <= k < |models| ==> models[k] == models[0]
  }

  predicate MayStop<K, C, P>(setup: Setup<K, C, P>, b: Batch<P>) {
    setup.enableCancellation && b.cancelled
  }

  ghost predicate JobInv<K, C, P>(setup: Setup<K, C, P>, b: Batch<P>, job: Job<P>, r: Range)
    requires setup.models != []
  {
    && job.range == r && r.start <= r.end <= |setup.cracks|
    && match job.phase
       case Queued => job.results == []
       case Running(t, i) => t < |b.tls| && r.start <= i <= r.end && job.results == Filled(setup, r, i)
       case Finished(i) =>
         && r.start <= i <= r.end && job.results == Filled(setup, r, i)
         && (i == r.end || MayStop(setup, b))
  }

  ghost predicate BatchInv<K, C, P>(setup: Setup<K, C, P>, plan: seq<Range>, b: Batch<P>)
    requires setup.models != []
  {
    |b.jobs| == |plan| && forall c :: 0 <= c < |plan| ==> JobInv(setup, b, b.jobs[c], plan[c])
  }

  lemma AdvanceInv<K, C, P>(setup: Setup<K, C, P>, plan: seq<Range>, b: Batch<P>, c: nat)
    requires SameModels(setup.models) && BatchInv(setup, plan, b) && Enabled(b, Advance(c))
    ensures BatchInv(setup, plan, Apply(setup, b, Advance(c)))
  {
    var after := AdvanceJob(setup, b, c);
    var job := b.jobs[c];
    assert JobInv(setup, b, job, plan[c]);
    var i := job.phase.i;
    if i < job.range.end && !MayStop(setup, b) {
      var p := setup.predict(setup.models[0], setup.cracks[i]);
      assert Filled(setup, plan[c], i)[i - plan[c].start := p] == Filled(setup, plan[c], i + 1);
    }
    assert JobInv(setup, after, after.jobs[c], plan[c]);
    forall d | 0 <= d < |plan| ensures JobInv(setup, after, after.jobs[d], plan[d]) {
      assert JobInv(setup, b, b.jobs[d], plan[d]);
    }
  }

  lemma StepInv<K, C, P>(setup: Setup<K, C, P>, plan: seq<Range>, b: Batch<P>, step: Step)
    requires SameModels(setup.models) && BatchInv(setup, plan, b) && Enabled(b, step)
    ensures var after := Apply(setup, b, step);
            BatchInv(setup, plan, after) && |after.tls| == |b.tls|
            && (after.cancelled ==> b.cancelled || step == Cancel)
  {
    var after := Apply(setup, b, step);
    match step
    case Advance(c) => AdvanceInv(setup, plan, b, c);
    case Begin(c, t) =>
      assert JobInv(setup, b, b.jobs[c], plan[c]);
      assert after.jobs[c].results == Filled(setup, plan[c], plan[c].start);
      forall d | 0 <= d < |plan| ensures JobInv(setup, after, after.jobs[d], plan[d]) {
        assert JobInv(setup, b, b.jobs[d], plan[d]);
      }
    case Cancel =>
      forall d | 0 <= d < |plan| ensures JobInv(setup, after, after.jobs[d], plan[d]) {
        assert JobInv(setup, b, b.jobs[d], plan[d]);
      }
  }

  lemma {:induction false} RunsInv<K(!new), C(!new), P(!new)>(
    setup: Setup<K, C, P>, plan: seq<Range>, first: Batch<P>, steps: seq<Step>, last: Batch<P>)
    requires SameModels(setup.models) && BatchInv(setup, plan, first)
    requires Runs(setup, first, steps, last)
    ensures BatchInv(setup, plan, last)
    ensures |last.tls| == |first.tls|
    ensures last.cancelled ==> first.cancelled || Cancel in steps
    decreases |steps|
  {
    hide Apply, Enabled, BatchInv;
    if steps != [] {
      var mid :| Leads(setup, first, steps[0], mid) && Runs(setup, mid, steps[1..], last);
      StepInv(setup, plan, first, steps[0]);
      RunsInv(setup, plan, mid, steps[1..], last);
    }
  }

  lemma RunStarts<K, C, P>(setup: Setup<K, C, P>, plan: seq<Range>, tls: seq<nat>)
    requires setup.models != [] && Partitions(plan, |setup.cracks|)
    ensures BatchInv(setup, plan, Start(setup, plan, tls))
  {
  }

  // ----- What the caller gets back

  function Expected<K, C, P>(setup: Setup<K, C, P>, n: nat): seq<P>
    requires setup.models != [] && n <= |setup.cracks|
  {
    seq(n, x requires 0 <= x < n => setup.predict(setup.models[0], setup.cracks[x]))
  }

  /** One more chunk vector at the end. */
  lemma JoinedOneMore<K, C, P>(setup: Setup<K, C, P>, b: Batch<P>, r: Range, i: nat, earlier: seq<P>)
    requires setup.models != [] && r.start <= i <= r.end <= |setup.cracks| && |earlier| == r.start
    requires i == r.end || MayStop(setup, b)
    requires Aligned(setup, b, earlier)
    ensures Aligned(setup, b, earlier + Filled(setup, r, i))
    ensures |earlier + Filled(setup, r, i)| == r.end
  {
  }

  ghost predicate Aligned<K, C, P>(setup: Setup<K, C, P>, b: Batch<P>, joined: seq<P>)
    requires setup.models != []
  {
    && |joined| <= |setup.cracks|
    && forall x :: 0 <= x < |joined| ==>
         joined[x] == setup.predict(setup.models[0], setup.cracks[x])
         || (joined[x] == setup.blank && MayStop(setup, b))
  }

  lemma NothingGathered<K, C, P>(setup: Setup<K, C, P>, b: Batch<P>)
    requires setup.models != []
    ensures Aligned(setup, b, [])
  {
  }

  lemma {:induction false} GatheredAligned<K, C, P>(setup: Setup<K, C, P>, plan: seq<Range>, b: Batch<P>, m: nat)
    requires setup.models != [] && Partitions(plan, |setup.cracks|) && BatchInv(setup, plan, b) && Over(b)
    requires m <= |plan|
    ensures |Gathered(b.jobs[..m])| == (if m == 0 then 0 else plan[m - 1].end)
    ensures Aligned(setup, b, Gathered(b.jobs[..m]))
  {
    hide Aligned, Filled;
    if m == 0 {
      NothingGathered(setup, b);
    } else {
      GatheredAligned(setup, plan, b, m - 1);
      assert b.jobs[..m][..m - 1] == b.jobs[..m - 1];
      assert JobInv(setup, b, b.jobs[m - 1], plan[m - 1]);
      hide BatchInv;
      JoinedOneMore(setup, b, plan[m - 1], b.jobs[m - 1].phase.i, Gathered(b.jobs[..m - 1]));
    }
  }

  /** Every schedule of a partitioned batch, on any number of threads and from any rotation of the
      models, gives one entry per crack in crack order: its prediction, or a blank one where a
      cancellation that was both enabled and requested cut a chunk short. */
  lemma BatchAligned<K(!new), C(!new), P(!new)>(
    setup: Setup<K, C, P>, plan: seq<Range>, tls: seq<nat>, steps: seq<Step>, b: Batch<P>)
    requires SameModels(setup.models) && Partitions(plan, |setup.cracks|)
    requires Runs(setup, Start(setup, plan, tls), steps, b) && Over(b)
    ensures |Gathered(b.jobs)| == |setup.cracks|
    ensures forall x :: 0 <= x < |setup.cracks| ==>
              Gathered(b.jobs)[x] == setup.predict(setup.models[0], setup.cracks[x])
              || (Gathered(b.jobs)[x] == setup.blank && setup.enableCancellation && Cancel in steps)
    ensures !(setup.enableCancellation && Cancel in steps)
            ==> Gathered(b.jobs) == Expected(setup, |setup.cracks|)
  {
    RunStarts(setup, plan, tls);
    RunsInv(setup, plan, Start(setup, plan, tls), steps, b);
    GatheredAligned(setup, plan, b, |plan|);
    assert b.jobs[..|plan|] == b.jobs;
  }

  /** predict_chunked is the prediction mapped over the cracks exactly when the minimum batch size
      does not overflow the rounding; otherwise it returns nothing. */
  lemma {:induction false} ChunkedIsMapExactly<K(!new), C(!new), P(!new)>(
    setup: Setup<K, C, P>, threads: nat, maxParallel: nat, minBatch: nat,
    tls: seq<nat>, steps: seq<Step>, b: Batch<P>)
    requires SameModels(setup.models) && SizesFit(|setup.cracks|, threads) && minBatch < SIZE_LIMIT
    requires ChunkSize(|setup.cracks|, Workers(threads, maxParallel), minBatch) > 0
    requires var chunk := ChunkSize(|setup.cracks|, Workers(threads, maxParallel), minBatch);
             Runs(setup, Start(setup, Chunks(|setup.cracks|, chunk), tls), steps, b)
    requires Over(b) && !(setup.enableCancellation && Cancel in steps)
    ensures Gathered(b.jobs) == Expected(setup, |setup.cracks|) <==> minBatch <= SIZE_LIMIT - |setup.cracks|
  {
    var n := |setup.cracks|;
    var plan := Chunks(n, ChunkSize(n, Workers(threads, maxParallel), minBatch));
    PlanPartitionsExactly(n, threads, maxParallel, minBatch);
    if minBatch <= SIZE_LIMIT - n {
      BatchAligned(setup, plan, tls, steps, b);
    } else {
      RunsKeepJobs(setup, Start(setup, plan, tls), steps, b);
      assert b.jobs == [];
    }
  }

  lemma {:induction false} RunsKeepJobs<K(!new), C(!new), P(!new)>(
    setup: Setup<K, C, P>, first: Batch<P>, steps: seq<Step>, last: Batch<P>)
    requires Runs(setup, first, steps, last)
    ensures |last.jobs| == |first.jobs|
    decreases |steps|
  {
    if steps != [] {
      var mid :| Leads(setup, first, steps[0], mid) && Runs(setup, mid, steps[1..], last);
      RunsKeepJobs(setup, mid, steps[1..], last);
    }
  }

  // ----- Progress

  function StepsLeft<P>(jobs: seq<Job<P>>): nat {
    if jobs == [] then 0
    else StepsLeft(jobs[..|jobs| - 1]) + JobStepsLeft(jobs[|jobs| - 1])
  }

  function JobStepsLeft<P>(job: Job<P>): nat {
    var r := job.range;
    match job.phase
    case Queued => if r.start <= r.end then r.end - r.start + 2 else 0
    case Running(_, i) => if i <= r.end then r.end - i + 1 else 1
    case Finished(_) => 0
  }

  lemma {:induction false} StepsLeftUpdate<P>(jobs: seq<Job<P>>, c: nat, job: Job<P>)
    requires c < |jobs|
    ensures StepsLeft(jobs[c := job]) == StepsLeft(jobs) - JobStepsLeft(jobs[c]) + JobStepsLeft(job)
  {
    var front := jobs[..|jobs| - 1];
    if c == |jobs| - 1 {
      assert jobs[c := job][..|jobs| - 1] == front;
    } else {
      assert jobs[c := job][..|jobs| - 1] == front[c := job];
      StepsLeftUpdate(front, c, job);
    }
  }

  /** While a job is unfinished some thread can step, and each thread step brings the end nearer. */
  lemma AlwaysProgress<K(!new), C(!new), P(!new)>(
    setup: Setup<K, C, P>, plan: seq<Range>, tls: seq<nat>, steps: seq<Step>, b: Batch<P>)
    requires SameModels(setup.models) && Partitions(plan, |setup.cracks|) && tls != []
    requires Runs(setup, Start(setup, plan, tls), steps, b)
    ensures !Over(b) ==> exists step :: step != Cancel && Enabled(b, step)
    ensures forall step :: step != Cancel && Enabled(b, step) ==>
              StepsLeft(Apply(setup, b, step).jobs) < StepsLeft(b.jobs)
  {
    RunStarts(setup, plan, tls);
    RunsInv(setup, plan, Start(setup, plan, tls), steps, b);
    hide Runs, BatchInv, Over, Enabled, Apply, StepsLeft, Partitions;
    if !Over(b) { SomeStep(setup, plan, b); }
    forall step | step != Cancel && Enabled(b, step)
      ensures StepsLeft(Apply(setup, b, step).jobs) < StepsLeft(b.jobs)
    {
      StepShortens(setup, plan, b, step);
    }
  }

  lemma StepShortens<K, C, P>(setup: Setup<K, C, P>, plan: seq<Range>, b: Batch<P>, step: Step)
    requires setup.models != [] && BatchInv(setup, plan, b) && step != Cancel && Enabled(b, step)
    ensures StepsLeft(Apply(setup, b, step).jobs) < StepsLeft(b.jobs)
  {
    hide StepsLeft, Pick, Rotate;
    assert JobInv(setup, b, b.jobs[step.c], plan[step.c]);
    StepsLeftUpdate(b.jobs, step.c, Apply(setup, b, step).jobs[step.c]);
  }

  lemma SomeStep<K, C, P>(setup: Setup<K, C, P>, plan: seq<Range>, b: Batch<P>)
    requires setup.models != [] && BatchInv(setup, plan, b) && b.tls != [] && !Over(b)
    ensures exists step :: step != Cancel && Enabled(b, step)
  {
    if c :| 0 <= c < |b.jobs| && b.jobs[c].phase.Running? {
      assert Enabled(b, Advance(c));
    } else {
      var c :| 0 <= c < |b.jobs| && !b.jobs[c].phase.Finished?;
      var least := FirstQueued(b.jobs, c);
      assert JobInv(setup, b, b.jobs[least], plan[least]);
      assert Enabled(b, Begin(least, 0));
    }
  }

  lemma {:induction false} FirstQueued<P>(jobs: seq<Job<P>>, c: nat) returns (r: nat)
    requires c < |jobs| && jobs[c].phase.Queued?
    ensures r <= c && jobs[r].phase.Queued?
    ensures forall k :: 0 <= k < r ==> !jobs[k].phase.Queued?
    decreases c
  {
    if k :| 0 <= k < c && jobs[k].phase.Queued? {
      r := FirstQueued(jobs, k);
    } else {
      r := c;
    }
  }

  // ----- The module's own loops

  class WashburnModule<!K, !C, P(0)> {
    var washburnConfig: K
    var perThreadModels: seq<K>
    var tlsThreadIndex: seq<nat>
    const predict: (K, C) -> P

    constructor (config: K, threads: nat, predict: (K, C) -> P)
      requires threads > 0
      ensures perThreadModels == [] && tlsThreadIndex == seq(threads, _ => 0)
      ensures washburnConfig == config && this.predict == predict
    {
      washburnConfig := config;
      perThreadModels := [];
      tlsThreadIndex := seq(threads, _ => 0);
      this.predict := predict;
    }

    /** One model per pool thread, all with the module's configuration. */
    method Initialize()
      requires tlsThreadIndex != []
      modifies this`perThreadModels
      ensures |perThreadModels| == |tlsThreadIndex| && SameModels(perThreadModels)
      ensures perThreadModels[0] == washburnConfig
    {
      perThreadModels := [];
      for i := 0 to |tlsThreadIndex|
        invariant |perThreadModels| == i && forall k :: 0 <= k < i ==> perThreadModels[k] == washburnConfig
      {
        perThreadModels := perThreadModels + [washburnConfig];
      }
    }

    /** The rotation picks some model; with equal models it does not matter which. */
    method SafePredictSingle(t: nat, crack: C) returns (p: P)
      requires t < |tlsThreadIndex| && perThreadModels != []
      modifies this`tlsThreadIndex
      ensures var models := old(perThreadModels);
              p == predict(models[Pick(old(tlsThreadIndex[t]), |models|)], crack)
      ensures tlsThreadIndex == old(tlsThreadIndex[t := Rotate(tlsThreadIndex[t], |perThreadModels|)])
      ensures SameModels(perThreadModels) ==> p == predict(perThreadModels[0], crack)
    {
      var idx := Pick(tlsThreadIndex[t], |perThreadModels|);
      tlsThreadIndex := tlsThreadIndex[t := Rotate(tlsThreadIndex[t], |perThreadModels|)];
      p := predict(perThreadModels[idx], crack);
    }

    /** The body of one chunk task on thread t. cancelSeenAt is the first index at which the loop
        would find the cancellation flag set. */
    method RunChunk(setup: Setup<K, C, P>, t: nat, r: Range, cancelSeenAt: nat)
      returns (chunkResults: array<P>, ghost reached: nat)
      requires t < |tlsThreadIndex| && SameModels(perThreadModels)
      requires setup.models == perThreadModels && setup.predict == predict
      requires r.start <= r.end <= |setup.cracks|
      modifies this`tlsThreadIndex
      ensures |tlsThreadIndex| == |old(tlsThreadIndex)|
      ensures r.start <= reached <= r.end && chunkResults[..] == Filled(setup, r, reached)
      ensures reached == if setup.enableCancellation && r.start <= cancelSeenAt < r.end then cancelSeenAt
                         else if setup.enableCancellation && cancelSeenAt < r.start then r.start
                         else r.end
      ensures fresh(chunkResults)
    {
      chunkResults := new P[r.end - r.start](_ => setup.blank);
      var i := r.start;
      reached := r.start;
      while i < r.end
        invariant r.start <= i <= r.end && reached == i
        invariant setup.enableCancellation ==> i <= cancelSeenAt || i == r.start
        invariant |tlsThreadIndex| == |old(tlsThreadIndex)|
        invariant chunkResults.Length == r.end - r.start && chunkResults[..] == Filled(setup, r, i)
      {
        if setup.enableCancellation && cancelSeenAt <= i { break; }
        var p := SafePredictSingle(t, setup.cracks[i]);
        chunkResults[i - r.start] := p;
        i := i + 1;
        reached := i;
      }
    }
  }

  /** The submission loop: the index range of every chunk, in submission order. */
  method SubmitChunks(n: nat, threads: nat, maxParallel: nat, minBatch: nat) returns (plan: seq<Range>)
    requires SizesFit(n, threads) && minBatch < SIZE_LIMIT
    ensures |plan| <= threads && (maxParallel > 0 ==> |plan| <= maxParallel)
    ensures minBatch <= SIZE_LIMIT - n ==> Partitions(plan, n)
    ensures minBatch > SIZE_LIMIT - n ==> plan == []
  {
    hide NumChunks, ChunkAt, ChunkSize;
    var numWorkers := threads;
    if maxParallel > 0 { numWorkers := if numWorkers < maxParallel then numWorkers else maxParallel; }
    ChunksAtMostWorkers(n, threads, maxParallel, minBatch);
    PlanPartitionsExactly(n, threads, maxParallel, minBatch);
    var chunkSize := ChunkSize(n, numWorkers, minBatch);
    var numChunks := NumChunks(n, chunkSize);
    plan := [];
    for c := 0 to numChunks
      invariant plan == Chunks(n, chunkSize)[..c]
    {
      plan := plan + [ChunkAt(n, chunkSize, c)];
    }
  }

  /** The joining loop over the futures. */
  method JoinChunks<P>(jobs: seq<Job<P>>) returns (results: seq<P>)
    ensures results == Gathered(jobs)
  {
    results := [];
    for c := 0 to |jobs|
      invariant results == Gathered(jobs[..c])
    {
      assert jobs[..c + 1][..c] == jobs[..c];
      results := results + jobs[c].results;
    }
    assert jobs[..|jobs|] == jobs;
  }
}
