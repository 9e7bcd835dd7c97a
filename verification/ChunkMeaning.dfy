/** How large the chunks are, which thread works on what, and what a cancellation does. */
module ChunkMeaning {
  import opened WashburnBatch

  // ----- The size of a chunk

  /** The workers are the pool's threads, or max_parallel of them where that is set and smaller; the
      chunk is the least size that is not below the minimum and lets those workers cover all cracks. */
  lemma ChunkSizeExactly(n: nat, threads: nat, maxParallel: nat, minBatch: nat)
    requires SizesFit(n, threads)
    ensures var w := Workers(threads, maxParallel);
      && w == (if maxParallel == 0 || maxParallel >= threads then threads else maxParallel)
      && var chunk := ChunkSize(n, w, minBatch);
         && chunk >= minBatch && chunk * w >= n
         && (chunk == minBatch || (chunk > 0 && (chunk - 1) * w < n))
  {
    var w := Workers(threads, maxParallel);
    ChunkSizePositive(n, w, minBatch);
    CeilingBounds(n, w);
    assert Wrap(n + w - 1) == n + w - 1;
  }

  // ----- Threads

  /** No thread is in two chunks at once. */
  ghost predicate OneChunkEach<P>(b: Batch<P>) {
    forall c, d :: 0 <= c < d < |b.jobs| && b.jobs[c].phase.Running? && b.jobs[d].phase.Running? ==>
      b.jobs[c].phase.thread != b.jobs[d].phase.thread
  }

  lemma StepOneChunkEach<K, C, P>(setup: Setup<K, C, P>, b: Batch<P>, step: Step)
    requires setup.models != [] && OneChunkEach(b) && Enabled(b, step)
    ensures OneChunkEach(Apply(setup, b, step))
  {
    hide Pick, Rotate;
  }

  lemma {:induction false} RunOneChunkEach<K(!new), C(!new), P(!new)>(
    setup: Setup<K, C, P>, first: Batch<P>, steps: seq<Step>, last: Batch<P>)
    requires setup.models != [] && OneChunkEach(first) && Runs(setup, first, steps, last)
    ensures OneChunkEach(last)
    decreases |steps|
  {
    hide Apply, Enabled, OneChunkEach;
    if steps != [] {
      var mid :| Leads(setup, first, steps[0], mid) && Runs(setup, mid, steps[1..], last);
      StepOneChunkEach(setup, first, steps[0]);
      RunOneChunkEach(setup, mid, steps[1..], last);
    }
  }

  /** In every schedule a thread works on one chunk at a time, on whose models no other thread's index moves. */
  lemma ThreadsApart<K(!new), C(!new), P(!new)>(
    setup: Setup<K, C, P>, plan: seq<Range>, tls: seq<nat>, steps: seq<Step>, b: Batch<P>)
    requires setup.models != [] && Runs(setup, Start(setup, plan, tls), steps, b)
    ensures OneChunkEach(b)
  {
    RunOneChunkEach(setup, Start(setup, plan, tls), steps, b);
  }

  // ----- Models in rotation

  /** The index after count predictions on one thread. */
  function Rotated(tls: nat, models: nat, count: nat): nat
    requires models > 0
  {
    if count == 0 then tls else Rotate(Rotated(tls, models, count - 1), models)
  }

  /** Predictions on one thread take the models in turn: one further each time, and round again. */
  lemma {:induction false} ModelsInTurn(tls: nat, models: nat, count: nat)
    requires 0 < models < SIZE_LIMIT && tls < models
    ensures Pick(Rotated(tls, models, count), models) == (tls + count) % models
    ensures Rotated(tls, models, count) == (tls + count) % models
  {
    var next := (tls + count) % models;
    RemainderUnique(next, models, 0, next);
    if count == 0 {
      RemainderUnique(tls, models, 0, tls);
    } else {
      ModelsInTurn(tls, models, count - 1);
      OneFurther(tls + count - 1, models);
    }
  }

  lemma OneFurther(x: nat, m: nat)
    requires 0 < m < SIZE_LIMIT
    ensures Rotate(x % m, m) == (x + 1) % m
  {
    NextRemainder(x, m, x / m, x % m);
    RotatedOnce(x % m, m);
    hide Rotate;
  }

  lemma NextRemainder(x: nat, m: nat, q: nat, r: nat)
    requires m > 0 && q == x / m && r == x % m
    ensures (x + 1) % m == if r + 1 < m then r + 1 else 0
  {
    assert x == q * m + r;
    if r + 1 < m {
      RemainderUnique(x + 1, m, q, r + 1);
    } else {
      NextMultiple(q, m);
      RemainderUnique(x + 1, m, q + 1, 0);
    }
  }

  lemma NextMultiple(q: nat, m: nat)
    ensures (q + 1) * m == q * m + m
  {
  }

  lemma RotatedOnce(r: nat, m: nat)
    requires r < m < SIZE_LIMIT
    ensures Rotate(r, m) == if r + 1 < m then r + 1 else 0
  {
    if r + 1 < m {
      RemainderUnique(r + 1, m, 0, r + 1);
    } else {
      RemainderUnique(r + 1, m, 1, 0);
    }
  }

  lemma RemainderUnique(a: nat, m: nat, q: nat, r: nat)
    requires m > 0 && a == q * m + r && r < m
    ensures a % m == r
  {
    assert a == (a / m) * m + a % m;
    Monotone(q, a / m, m);
    Monotone(a / m, q, m);
  }

  // ----- Cancellation

  /** Once cancelled, and where cancelling is enabled, every chunk stops at its next turn with what it has. */
  lemma CancelStops<K, C, P>(setup: Setup<K, C, P>, b: Batch<P>, c: nat)
    requires setup.models != [] && setup.enableCancellation && Enabled(b, Advance(c))
    ensures var cancelled := Apply(setup, b, Cancel);
      && Enabled(cancelled, Advance(c))
      && var after := Apply(setup, cancelled, Advance(c));
         after.jobs == b.jobs[c := b.jobs[c].(phase := Finished(b.jobs[c].phase.i))] && after.tls == b.tls
  {
  }

  /** Where it is not enabled, a cancellation changes no later turn. */
  lemma CancelIgnored<K, C, P>(setup: Setup<K, C, P>, b: Batch<P>, c: nat)
    requires setup.models != [] && !setup.enableCancellation && Enabled(b, Advance(c))
    ensures var cancelled := Apply(setup, b, Cancel);
      && Enabled(cancelled, Advance(c))
      && Apply(setup, cancelled, Advance(c)) == Apply(setup, b, Advance(c)).(cancelled := true)
  {
    hide Pick, Rotate;
  }

  // ----- Completion

  lemma {:induction false} GoesToTheEnd<K(!new), C(!new), P(!new)>(setup: Setup<K, C, P>, plan: seq<Range>, b: Batch<P>)
    returns (steps: seq<Step>, last: Batch<P>)
    requires SameModels(setup.models) && BatchInv(setup, plan, b) && b.tls != []
    ensures Runs(setup, b, steps, last) && Over(last) && Cancel !in steps
    decreases StepsLeft(b.jobs)
  {
    hide Apply, Enabled, BatchInv, StepsLeft, Over;
    steps, last := [], b;
    if !Over(b) {
      SomeStep(setup, plan, b);
      var step :| step != Cancel && Enabled(b, step);
      var next := Apply(setup, b, step);
      StepShortens(setup, plan, b, step);
      StepInv(setup, plan, b, step);
      IndicesKept(setup, b, step);
      var rest: seq<Step>;
      rest, last := GoesToTheEnd(setup, plan, next);
      steps := [step] + rest;
      assert steps[1..] == rest && Leads(setup, b, steps[0], next);
    }
  }

  lemma IndicesKept<K, C, P>(setup: Setup<K, C, P>, b: Batch<P>, step: Step)
    requires setup.models != [] && Enabled(b, step)
    ensures |Apply(setup, b, step).tls| == |b.tls|
  {
    hide Pick, Rotate;
  }

  /** A partitioned batch can be carried to its end on any number of threads, and then holds the
      prediction of every crack in crack order. */
  lemma BatchCanComplete<K(!new), C(!new), P(!new)>(setup: Setup<K, C, P>, plan: seq<Range>, tls: seq<nat>)
    returns (steps: seq<Step>, b: Batch<P>)
    requires SameModels(setup.models) && Partitions(plan, |setup.cracks|) && tls != []
    ensures Runs(setup, Start(setup, plan, tls), steps, b) && Over(b) && Cancel !in steps
    ensures Gathered(b.jobs) == Expected(setup, |setup.cracks|)
  {
    RunStarts(setup, plan, tls);
    hide BatchInv, Partitions, Runs, Gathered, Expected, Over;
    steps, b := GoesToTheEnd(setup, plan, Start(setup, plan, tls));
    BatchAligned(setup, plan, tls, steps, b);
  }
}
