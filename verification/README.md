# Porcelain monitoring: verified model

A Dafny model of the core of a porcelain crack monitoring system, with proofs of what that core
promises. `dafny verify dfyconfig.toml` checks all of it.

The modules, by the part of the system they model:

- **Linear algebra, Gaussian process, optimiser** (`Vectors`, `GaussJordan`, `InversionExactness`,
  `PivotRules`, `Cholesky`, `Matrices`, `GaussianProcesses`, `KernelMeaning`,
  `BayesianOptimization`). Matrices of any size over the reals. `Matrix`, `GaussianProcess` and `BayesianOptimizer` are classes whose methods run the
  original's loops; `GaussJordan`, `InversionExactness` and `Cholesky` hold the specifications and
  their meaning. `sqrt` is a parameter with its defining law, the normal distribution one with the
  sign and growth of its integral, `exp` one whose kernel is positive semidefinite.
- **Lock-free queue** (`LockFreeQueue`, `QueueDelivery`). A step system with any number of producers, whose exchange
  and link are separate steps, and one consumer.
- **Thread pool and its users** (`ThreadPool`, `PoolProgress`, `NestedPreview`, `WashburnBatch`,
  `ChunkMeaning`). Step systems over
  all schedules; the last also has the chunk arithmetic in 64-bit wrap-around.
- **Stress analysis** (`FemMesh`, `GridTraversal`, `ElasticitySweep`, `DiscreteEquation`,
  `StressSmoothing`, `SmoothingPass`, `SmoothingMeaning`, `Refinement`, `RefinementPlaces`,
  `StressAnalysis`). `FeaMesh` carries the in-place loops; the other
  modules hold what they compute and why it is bounded, averaged and conserved.
- **Framing and payloads** (`Bytes`, `Payloads`, `PayloadLayout`, `Codec`, `Framing`,
  `FrameDispatch`). Bytes, words and records; a
  session object that reassembles frames; both ends of the codec as loops.
- **Two stateful simulations** (`DemSimulation` with `ParticleMotion`, `RepairTool` with
  `RepairCompletion`).

## What the proofs found

- `inverse` returns an inverse exactly when its run completes and every entry it skips as small is
  zero. A non-zero skipped entry always spoils the result, and a non-singular matrix whose run stops
  at a tiny pivot gets the zero matrix. `TinyPivotRejected` and `TinyEntrySkipped` show such inputs.
- `train` ignores whether the factorisation succeeded. When it did not, the original divides by the
  zero left on the diagonal; here `Train` reports the failure and says where that zero is. Without
  noise any repeated training point makes it fail; with any noise it succeeds for every kernel that
  is positive semidefinite, so the optimiser, which never gets any but the default noise, always
  trains.
- The search for the next sample prefers larger predicted objectives, although the objective is
  minimised, and its gradient comes out too small within a step of a bound, by half at the bound.
- The adaptive mesh can exceed `max_total_nodes` whenever that cap is nine or more. The most nodes
  there can be is cap - 1 + 7·((cap - 1) / 8), which is below twice the cap and is attained.
- Previews that submit mesh jobs to their own pool and wait for them can deadlock exactly when at
  least as many previews with cracks are queued as there are workers.
- A `min_batch_per_thread` within the list length of 2^64 makes `predict_chunked` return nothing.
- The sensor side and the receiver disagree about the frame header. A packet sent on its own is cut
  as one frame and its payload handed on intact exactly when bits 32 to 47 of the timestamp are the
  payload length plus 8 and every payload byte is zero. Laser records with a scan area and vibration
  records with amplitudes never arrive as sent.
- Contact forces never influence the particles: they are added after the velocities that should use
  them and overwritten before the next ones. And a free particle falls as if gravity were half as
  strong, because each step gives the velocity only half of the step's acceleration.
- Applying the repair tool to a scene a second time without a reset leaves stale entries behind. A
  crack that is wholly repaired while its left-over animation lasts then never closes. The public
  method allows this, but its only caller (frontend/js/porcelain-viewer.js:158-164) makes a new tool
  first, so nothing in the repository does it.

## Model

| member | source | states |
|---|---|---|
| `InversionExactness.StepAligned` | backend/include/bayesian_optimization.h:92-115 | whatever is skipped, one column keeps every row [l, r] with l = r·A from that column on, because those columns always undergo whole row operations |
| `InversionExactness.UnitBack` | backend/include/bayesian_optimization.h:92-115 | whatever is skipped, a unit vector of an earlier column that the right half maps to after a step it mapped to before |
| `InversionExactness.ReduceInjective` | backend/include/bayesian_optimization.h:91-116 | whatever is skipped, the right half of a complete run maps no non-zero vector to zero |
| `InversionExactness.ReduceSurjective` | backend/include/bayesian_optimization.h:91-116 | whatever is skipped, the right half of a complete run reaches every vector |
| `InversionExactness.InverseForcesSkips` | backend/include/bayesian_optimization.h:109-115 | if the right half of a complete run is a left inverse, every entry skipped on the way was exactly zero |
| `InversionExactness.InverseExactly` | backend/include/bayesian_optimization.h:82-123 | for every square matrix: the returned B satisfies A·B = B·A = I if and only if the run completes and every skipped entry is exactly zero; it is the zero matrix if and only if the run does not complete |
| `InversionExactness.InverseDecidesSingularity` | backend/include/bayesian_optimization.h:82-123 | the answer (zero matrix for a singular A, inverse otherwise) is right if and only if, for a singular A, the run stops, and for any other A, it completes skipping only zeros; when only zeros are skipped it can only err on a non-singular A, by stopping |
| `InversionExactness.TinyPivotOfSingular` | backend/include/bayesian_optimization.h:103-105 | a singular matrix is rightly given the zero matrix although the run stops at a non-zero pivot |
| `PivotRules.StopsExactlyWhenAllSmall` | backend/include/bayesian_optimization.h:92-105 | for any matrix and column: the column is given up if and only if every entry at or below the diagonal is under 1e-12 in absolute value |
| `PivotRules.SkipsExactlySmall` | backend/include/bayesian_optimization.h:109-115 | in a column that is not given up, a row other than the pivot row is left as it is if and only if its entry is at most 1e-12 in absolute value; otherwise the entry becomes zero |
| `PivotRules.GivesUpExactly` | backend/include/bayesian_optimization.h:82-123 | the result is the zero matrix if and only if the columns, done one after the other, lead to one whose entries at or below the diagonal are all under 1e-12 |
| `PivotRules.TriangularCompletesExactly` | backend/include/bayesian_optimization.h:82-123 | the run of an upper triangular matrix of any size completes if and only if no diagonal entry is under 1e-12 |
| `PivotRules.PermutedDiagonalInverted` | backend/include/bayesian_optimization.h:82-123 | a diagonal matrix of any size with its rows in any order, and no diagonal entry under 1e-12, is given its two-sided inverse |
| `GaussJordan.TinyPivotRejected` | backend/include/bayesian_optimization.h:103-105 | for every non-zero v, the 1×1 matrix [v] is inverted if and only if its absolute value is at least 1e-12, although it always has an inverse |
| `GaussJordan.TinyEntrySkipped` | backend/include/bayesian_optimization.h:110 | a concrete invertible 2×2 matrix, with an entry of 1e-13 below the pivot, for which the returned matrix is not an inverse |
| `GaussJordan.InverseNotSingular` | backend/include/bayesian_optimization.h:82-123 | a matrix with a two-sided inverse is not singular, so an inverse and a null vector exclude each other |
| `GaussJordan.InverseSolves` | backend/include/bayesian_optimization.h:147-148 | multiplying by a two-sided inverse solves the linear system |
| `InversionExactness.FallbackSolvesExactly` | backend/include/bayesian_optimization.h:147-148 | for every square matrix the fallback of solve answers every right-hand side if and only if the run completes skipping only zeros |
| `InversionExactness.SolveAnswersExactly` | backend/include/bayesian_optimization.h:144-166 | for every square matrix: solve answers every right-hand side rightly if and only if, when the lower triangle is that of a positive definite matrix, the matrix is symmetric, and otherwise the elimination completes skipping only zeros |
| `Cholesky.EntryWritten` | backend/include/bayesian_optimization.h:129-138 | writing an entry that satisfies the product equation extends the part of L·Lᵀ that agrees with A by that entry and disturbs no earlier one |
| `Cholesky.FactorPositiveDefinite` | backend/include/bayesian_optimization.h:125-142 | a symmetric matrix with a lower triangular factor of positive diagonal is positive definite |
| `Cholesky.FailureWitness` | backend/include/bayesian_optimization.h:134 | when the value under the square root is not positive, there is a non-zero x with xᵀAx ≤ 0 |
| `Cholesky.FactorDecides` | backend/include/bayesian_optimization.h:125-142 | for any matrix, a factor means that the lower triangle belongs to a positive definite symmetric matrix, and a factorisation that is stuck means that it does not |
| `Cholesky.SolvesSystem` | backend/include/bayesian_optimization.h:150-165 | forward then back substitution with a factor of a symmetric A solves A·x = b |
| `Cholesky.StuckDividesByZero` | backend/include/bayesian_optimization.h:134 | a failed factorisation leaves a first zero on the diagonal, with positive entries before it: the next substitution divides by zero there |
| `Matrices.Matrix.Inverse` | backend/include/bayesian_optimization.h:82-123 | the in-place elimination returns a two-sided inverse exactly when the run completes skipping only zeros, and the zero matrix exactly when it does not complete |
| `Matrices.FindPivot` | backend/include/bayesian_optimization.h:92-99 | the pivot row is the first with the largest absolute entry at or below the diagonal |
| `Matrices.DividePivotRow` | backend/include/bayesian_optimization.h:106-107 | the in-place division gives the scaled pivot row, entries left of the column untouched |
| `Matrices.SubtractPivotRow` | backend/include/bayesian_optimization.h:111-113 | the in-place subtraction gives the row less its factor times the pivot row, entries left of the column untouched |
| `Matrices.ClearColumn` | backend/include/bayesian_optimization.h:109-115 | exactly the rows above the tolerance, other than the pivot row, are subtracted from |
| `Matrices.EliminateColumn` | backend/include/bayesian_optimization.h:92-115 | the loop body over one column is the specified step, stop included |
| `Matrices.Eliminate` | backend/include/bayesian_optimization.h:91-116 | the column loop, with its early exit, is the specified elimination |
| `Matrices.Matrix.CholeskyDecompose` | backend/include/bayesian_optimization.h:125-142 | on success L is lower triangular with positive diagonal and L·Lᵀ agrees with the lower triangle of A, on failure it does so up to the row that failed; for any A the result is true if and only if the symmetric matrix with that lower triangle is positive definite |
| `Matrices.RemainingSum` | backend/include/bayesian_optimization.h:130-132 | the inner loop leaves the entry less the dot product of the two rows so far |
| `Matrices.Matrix.Solve` | backend/include/bayesian_optimization.h:144-166 | for any square A: when its lower triangle is that of a positive definite symmetric matrix, the result solves the system of that symmetric matrix, otherwise it is the returned inverse times b; symmetric A that is positive definite, or whose elimination completes skipping only zeros, is solved |
| `Matrices.Matrix.SolveLowerTriangular` | backend/include/bayesian_optimization.h:294-304 | the in-place forward loop returns the y that satisfies every row of the lower system |
| `Matrices.Matrix.SolveUpperTriangular` | backend/include/bayesian_optimization.h:306-316 | the in-place backward loop returns the x that satisfies every row of the transposed system |
| `Matrices.Matrix.TimesVector` | backend/include/bayesian_optimization.h:180-186 | the accumulating loop is the matrix-vector product |
| `GaussianProcesses.GaussianProcess.BuildCovariance` | backend/include/bayesian_optimization.h:241-254 | the double loop builds the kernel matrix with the noise added on the diagonal only |
| `GaussianProcesses.GaussianProcess.Kernel` | backend/include/bayesian_optimization.h:226-234 | the distance loop and exponential give the squared-exponential kernel |
| `KernelMeaning.KernelIsSquaredExponential` | backend/include/bayesian_optimization.h:226-234 | the kernel is σ_f²·exp(q) for the q with q·2l² = -|x1 - x2|² |
| `KernelMeaning.CloserExactlyLarger` | backend/include/bayesian_optimization.h:226-234 | for an increasing exponential, of two pairs of points the one with the smaller squared distance has the larger kernel, if and only if |
| `GaussianProcesses.CovarianceSymmetric` | backend/include/bayesian_optimization.h:241-254 | the covariance is symmetric for any data and hyperparameters |
| `GaussianProcesses.GaussianProcess.Train` | backend/include/bayesian_optimization.h:236-260 | the factorisation succeeds if and only if the covariance is positive definite, and then K·α = y; it succeeds whenever there is noise and the kernel matrix is positive semidefinite; otherwise the stored factor has a zero on its diagonal, by which the original goes on to divide |
| `GaussianProcesses.NoiseMakesDefinite` | backend/include/bayesian_optimization.h:241-258 | a positive semidefinite kernel matrix with any noise on its diagonal is positive definite, so training succeeds |
| `GaussianProcesses.DuplicatePointsFail` | backend/include/bayesian_optimization.h:241-258 | without noise, two equal training points make the covariance not positive definite, whatever the kernel, so training fails |
| `GaussianProcesses.FactorAndSolve` | backend/include/bayesian_optimization.h:256-259 | for a symmetric K: success if and only if positive definite, a factor, and coefficients with K·α = y |
| `GaussianProcesses.GaussianProcess.Predict` | backend/include/bayesian_optimization.h:262-285 | the mean is k*ᵀK⁻¹y and the variance k** + noise - k*ᵀK⁻¹k*, floored at 1e-12, for the vectors that solve K·α = y and K·w = k*; at every training point the mean is the observation less noise times its coefficient and the variance is at most twice the noise or the floor |
| `GaussianProcesses.PredictionUnique` | backend/include/bayesian_optimization.h:262-285 | with a positive definite covariance there is only one such mean and variance |
| `GaussianProcesses.ExplainedVariance` | backend/include/bayesian_optimization.h:278-283 | at a training point the explained variance v·v is at least the diagonal entry less twice the noise |
| `GaussianProcesses.PredictionAt` | backend/include/bayesian_optimization.h:274-284 | any vector equal to a covariance row less its noise gives that mean and variance bound |
| `KernelMeaning.OnePointPosterior` | backend/include/bayesian_optimization.h:236-285 | with one training point x0 and observation y, the prediction at x has the mean k·y/v and the variance k(x, x) + σ_n² - k²/v, floored at 1e-12, where k is the kernel of x0 and x and v that of x0 with itself plus σ_n² |
| `KernelMeaning.CloserExactlyMore` | backend/include/bayesian_optimization.h:262-276 | so a positive observation raises the prediction at one point more than at another if and only if it was made closer to it |
| `BayesianOptimization.ShuffleBijective` | backend/include/bayesian_optimization.h:444-446 | a shuffle of 0 … n-1 takes every value exactly once |
| `BayesianOptimization.StratumOf` | backend/include/bayesian_optimization.h:450 | (s + u) / n lies in stratum s and in no other |
| `BayesianOptimization.FillColumn` | backend/include/bayesian_optimization.h:443-452 | one dimension: a sample in each stratum exactly once, the other dimensions unchanged |
| `BayesianOptimization.LatinHypercubeSampling` | backend/include/bayesian_optimization.h:439-453 | for any permutations and draws: every dimension has exactly one sample in each of its n strata, all within the unit interval |
| `BayesianOptimization.BayesianOptimizer.InitialDesign` | backend/include/bayesian_optimization.h:365-373 | the design is a Latin hypercube carried over to the bounds, every point in the box with its objective value |
| `BayesianOptimization.BayesianOptimizer.Fit` | backend/include/bayesian_optimization.h:386-391 | the samples become the training data and, with the default noise and a positive semidefinite kernel, training always succeeds |
| `BayesianOptimization.BayesianOptimizer.AcquisitionAt` | backend/include/bayesian_optimization.h:427-437 | the value is the expected improvement under the posterior of the samples the process was trained on |
| `BayesianOptimization.BayesianOptimizer.LeastValue` | backend/include/bayesian_optimization.h:375-382 | the first of the least values |
| `BayesianOptimization.GradientOfQuadratic` | backend/include/bayesian_optimization.h:537-550 | where the acquisition value is quadratic along a dimension, the component is its derivative halfway between the two clamped points, scaled by the part of 2h between them; away from the bounds it is the exact derivative |
| `BayesianOptimization.GradientExactlyInside` | backend/include/bayesian_optimization.h:537-550 | on a linear stretch the component is the slope if and only if the slope is zero or neither point was clamped |
| `BayesianOptimization.GradientHalvedAtBound` | backend/include/bayesian_optimization.h:537-550 | an instance: on [0, 1] with mean best + ξ and variance (1 + x)² the improvement has the slope φ(0) > 0 at the lower bound, and the gradient there is half of it |
| `BayesianOptimization.ImprovementFormula` | backend/include/bayesian_optimization.h:427-437 | with g = mean - best - ξ and z·σ = g the improvement is g·Φ(z) + σ·φ(z), and zero when σ is under 1e-9 |
| `BayesianOptimization.ImprovementNonNegative` | backend/include/bayesian_optimization.h:427-437 | the expected improvement is never negative |
| `BayesianOptimization.DeviationNotNegligible` | backend/include/bayesian_optimization.h:430-432 | with the floored variance of a prediction the deviation is never below 1e-9, so the improvement is never cut to zero |
| `BayesianOptimization.LargerMeanPreferred` | backend/include/bayesian_optimization.h:427-437 | of two predictions with equal variance the larger mean has the larger improvement, if and only if, although the objective is minimised |
| `BayesianOptimization.ClampNearest` | backend/include/bayesian_optimization.h:516 | clamping gives the point of the interval nearest to the value |
| `BayesianOptimization.StepGoesUphill` | backend/include/bayesian_optimization.h:514-517 | along each dimension a step goes up the slope, strictly unless it begins at the bound ahead, and by step·slope/norm while that stays within the bounds |
| `BayesianOptimization.BayesianOptimizer.ClampedStep` | backend/include/bayesian_optimization.h:513-517 | the step follows the normalised gradient, clamped into the box |
| `BayesianOptimization.BayesianOptimizer.TryStep` | backend/include/bayesian_optimization.h:505-520 | a gradient shorter than 1e-6 ends the search; otherwise the point tried is one clamped step along it, with its expected improvement |
| `BayesianOptimization.BayesianOptimizer.LocalSearch` | backend/include/bayesian_optimization.h:497-530 | the search stays in the box, returns the value of the point it returns, never lowers it, and stays where it began if and only if the gradient there is shorter than 1e-6 or none of the 20 steps along it, from 0.01 halving down to 1e-8, gains more than 1e-12; whenever it moves it gains more than that |
| `BayesianOptimization.BayesianOptimizer.MaximizeAcquisition` | backend/include/bayesian_optimization.h:455-495 | the chosen point lies in the box and its expected improvement, as the process trained on the samples predicts it, is at least that of every grid candidate and every perturbed sample; it comes from a local search begun at a best candidate |
| `BayesianOptimization.BayesianOptimizer.Optimize` | backend/include/bayesian_optimization.h:359-416 | all samples lie in the box with their values, the first of them one per stratum in every dimension; the returned objective is the least value and is attained by the returned point; each round trains the process on the samples before it, and the sample it adds comes from a local search begun at a best candidate of that round and beats them all in the expected improvement that process predicts |
| `LockFreeQueue.ReachableInv` | backend/include/lockfree_queue.h:15-51 | the queue invariant holds after any interleaving of any producers' allocate, exchange and link steps with the consumer's steps |
| `LockFreeQueue.ContentsArePushed` | backend/include/lockfree_queue.h:31-35 | in every reachable state the values in list order are the pushed values in the order of the tail exchanges |
| `LockFreeQueue.PopsAreAPrefixOfPushes` | backend/include/lockfree_queue.h:31-51 | in every interleaving the popped values are a prefix of the values in tail-exchange order: none lost, repeated or reordered |
| `LockFreeQueue.ReportsEmpty` | backend/include/lockfree_queue.h:40-43 | a pop that has loaded the head reports empty if and only if everything pushed was popped or the next producer is between exchange and link; with no push in between, if and only if everything was popped |
| `LockFreeQueue.EmptyAnswers` | backend/include/lockfree_queue.h:53-56 | empty called by the consumer answers yes under exactly the same condition; when it answers no, a value is waiting |
| `LockFreeQueue.HeadFreedByPop` | backend/include/lockfree_queue.h:45-47 | a pop deletes the node that was head before it, so no other thread may read through a head it loaded earlier |
| `LockFreeQueue.NeverTouchesFreed` | backend/include/lockfree_queue.h:21-51 | no enabled step touches a deleted node; head, tail and every pending old tail are never deleted nodes |
| `LockFreeQueue.PopDelivers` | backend/include/lockfree_queue.h:37-51 | run to its end with no push in flight, a pop of a non-empty queue delivers the next value in order |
| `LockFreeQueue.DrainDeliversAll` | backend/include/lockfree_queue.h:37-51 | repeated pops with no push in flight deliver exactly the values still queued |
| `QueueDelivery.PushAppends` | backend/include/lockfree_queue.h:31-35 | from every reachable state an uninterrupted push into a new node appends its value and leaves nothing in flight |
| `QueueDelivery.PushedThenPopped` | backend/include/lockfree_queue.h:31-51 | values pushed one after the other into a new queue, into any distinct nodes and by any producers, come out of as many pops in that order |
| `QueueDelivery.EverythingDelivered` | backend/include/lockfree_queue.h:31-51 | from every state of every schedule some run without a new push (pending links, then the consumer) hands out everything that was pushed |
| `QueueDelivery.EmptyWhenIdle` | backend/include/lockfree_queue.h:53-56 | with no push in flight empty answers yes if and only if nothing is left to pop |
| `QueueDelivery.SwingOrRetry` | backend/include/lockfree_queue.h:45-49 | a compare-and-swap that fails spuriously sends the consumer back to the head and changes nothing else; otherwise the head advances by one node |
| `LockFreeQueue.Destroy` | backend/include/lockfree_queue.h:21-26 | the destructor's loop deletes the nodes from head on, each once, none of them deleted before |
| `LockFreeQueue.ReachableNoneLeaked` | backend/include/lockfree_queue.h:31-51 | in every reachable state each allocated node has been exchanged in or is still held by its producer |
| `LockFreeQueue.DestructionFreesAll` | backend/include/lockfree_queue.h:21-51 | once the producers are done, after destruction every node ever allocated has been deleted |
| `ThreadPool.ReachableInv` | backend/include/modules/common/thread_pool.cpp:13-33 | the pool invariant holds in every schedule, with stop stored and active decremented outside the lock |
| `ThreadPool.ActiveCountsUnfinished` | backend/include/modules/common/thread_pool.h:52-59 | outside the two statements of submit, the active count equals queued plus dequeued but unfinished tasks; a decrement never starts from zero |
| `ThreadPool.FirstInFirstOutAtMostOnce` | backend/include/modules/common/thread_pool.cpp:17-29 | tasks are dequeued in acceptance order, each is run at most once and only if accepted, and the queue is never read when empty |
| `ThreadPool.WaitAllMeansFinished` | backend/include/modules/common/thread_pool.cpp:46-51 | whenever the wait predicate lets wait_all return, every accepted task has finished |
| `ThreadPool.ShutdownDrains` | backend/include/modules/common/thread_pool.cpp:53-60 | once all workers have exited, every accepted task has run and no later step can have another one accepted |
| `PoolProgress.EveryTaskCanFinish` | backend/include/modules/common/thread_pool.cpp:13-51 | from every state of every schedule some run of the threads already inside finishes every accepted task, after which wait_all returns |
| `PoolProgress.SubmittedCanFinish` | backend/include/modules/common/thread_pool.h:40-62 | tasks submitted to a new pool are all accepted, and some run finishes them |
| `PoolProgress.ShutdownCanFinish` | backend/include/modules/common/thread_pool.cpp:53-60 | whenever the pool is stopped, some run finishes every accepted task and lets every worker exit, so that the joins end |
| `NestedPreview.MoveInv` | backend/modules/vr_preview/vr_module.cpp:242-257 | every worker move keeps each waiting preview's count of unfinished meshes equal to those queued or running |
| `NestedPreview.RequestInv` | backend/modules/vr_preview/vr_module.cpp:301-307 | a new preview or other job can be submitted at any moment: the invariant holds, and only a preview that will wait counts as unfinished |
| `NestedPreview.MoveKeepsNumbers` | backend/modules/vr_preview/vr_module.cpp:242-257 | every move keeps previews and their meshes numbered apart, so a ready mesh releases only the preview that asked for it |
| `NestedPreview.MoveDoesOneUnit` | backend/modules/vr_preview/vr_module.cpp:242-257 | every worker move does exactly one unit of the remaining work and adds no unfinished preview |
| `NestedPreview.NoDeadlock` | backend/modules/vr_preview/vr_module.cpp:301-307 | with fewer unfinished previews than workers, every state with unfinished work has a worker that can move |
| `NestedPreview.EveryScheduleCompletes` | backend/modules/vr_preview/vr_module.cpp:245-257 | from such a state every schedule has exactly as many moves as there is work, ends with nothing left, and before that can always go on |
| `NestedPreview.DeadlockReachable` | backend/modules/vr_preview/vr_module.cpp:361-363 | with at least as many previews with cracks queued as workers, a schedule leads to a state with unfinished work in which nobody can move |
| `NestedPreview.DeadlocksExactlyWhenSaturated` | backend/modules/vr_preview/vr_module.cpp:245-257 | a queue of previews can deadlock if and only if at least as many of them as there are workers have cracks to wait for |
| `WashburnBatch.ChunksAtMostWorkers` | backend/modules/washburn_penetration/washburn_module.cpp:164-168 | whatever the options, there are no more chunks than workers, nor than the parallelism limit |
| `ChunkMeaning.ChunkSizeExactly` | backend/modules/washburn_penetration/washburn_module.cpp:164-168 | the chunk is the least size that is not below the minimum and lets the pool threads, or max_parallel of them where that is smaller, cover all cracks |
| `WashburnBatch.ChunksPartition` | backend/modules/washburn_penetration/washburn_module.cpp:166-175 | unless the rounding overflows, the chunks are non-empty, follow one another and cover all indices |
| `WashburnBatch.PlanPartitionsExactly` | backend/modules/washburn_penetration/washburn_module.cpp:164-175 | that is so for a minimum batch size up to 2^64 less the list length; above it, the sum wraps round and there is no chunk |
| `WashburnBatch.RunsInv` | backend/modules/washburn_penetration/washburn_module.cpp:173-189 | in every schedule each chunk's vector holds the predictions up to the index its thread has reached and blanks after it |
| `WashburnBatch.BatchAligned` | backend/modules/washburn_penetration/washburn_module.cpp:173-197 | every schedule, from any rotation of the models, gives one entry per crack in order: its prediction, or a blank if cancellation was enabled and requested |
| `WashburnBatch.ChunkedIsMapExactly` | backend/modules/washburn_penetration/washburn_module.cpp:156-198 | without cancellation the joined result is the prediction mapped over the list if and only if the minimum batch size does not overflow the rounding |
| `WashburnBatch.AlwaysProgress` | backend/modules/washburn_penetration/washburn_module.cpp:173-197 | while a chunk is unfinished some thread can step, and every thread step brings the end nearer |
| `ChunkMeaning.ThreadsApart` | backend/modules/washburn_penetration/washburn_module.cpp:173-189 | in every schedule a thread works on one chunk at a time |
| `ChunkMeaning.BatchCanComplete` | backend/modules/washburn_penetration/washburn_module.cpp:173-197 | a partitioned batch can be carried to its end on any number of threads, and then holds the prediction of every crack in crack order |
| `ChunkMeaning.ModelsInTurn` | backend/modules/washburn_penetration/washburn_module.cpp:77-81 | predictions on one thread take the models in turn, one further each time and round again |
| `ChunkMeaning.CancelStops` | backend/modules/washburn_penetration/washburn_module.cpp:180-186 | once cancelled, and where cancelling is enabled, every chunk stops at its next turn with what it has |
| `ChunkMeaning.CancelIgnored` | backend/modules/washburn_penetration/washburn_module.cpp:180-186 | where it is not enabled, a cancellation changes no later turn |
| `WashburnBatch.WashburnModule.Initialize` | backend/modules/washburn_penetration/washburn_module.cpp:45-53 | one model per thread, all with the module's configuration |
| `WashburnBatch.WashburnModule.SafePredictSingle` | backend/modules/washburn_penetration/washburn_module.cpp:71-97 | the rotating index picks an existing model, and among equal models the choice does not matter |
| `WashburnBatch.WashburnModule.RunChunk` | backend/modules/washburn_penetration/washburn_module.cpp:180-186 | the chunk loop fills its vector up to the index at which it first sees an enabled cancellation, or to the end |
| `WashburnBatch.SubmitChunks` | backend/modules/washburn_penetration/washburn_module.cpp:164-189 | the submission loop produces a partition no larger than the worker count, or nothing on overflow |
| `WashburnBatch.JoinChunks` | backend/modules/washburn_penetration/washburn_module.cpp:191-197 | the joining loop concatenates the chunk vectors in chunk order |
| `GridTraversal.SweepOrderSound` | backend/algorithms/stress_analysis.cpp:454-457 | the three nested loops visit exactly the interior indices, each once, in increasing order |
| `GridTraversal.InteriorHasNeighbours` | backend/algorithms/stress_analysis.cpp:460-465 | on a full grid all six neighbour indices of an interior node are nodes of the mesh |
| `ElasticitySweep.WeightsOf` | backend/algorithms/stress_analysis.cpp:467-470 | non-zero spacings give positive weights, so the diagonal is positive |
| `ElasticitySweep.SweepMaximumPrinciple` | backend/algorithms/stress_analysis.cpp:454-487 | one in-place sweep raises the displacement bound by at most the source bound and changes nothing but displacements of non-boundary nodes |
| `ElasticitySweep.SweepsMaximumPrinciple` | backend/algorithms/stress_analysis.cpp:453-488 | from zero displacement, any number of sweeps keeps displacements within that number times the source bound, and boundary nodes never move |
| `ElasticitySweep.SweepFixedExactlyWhenSolved` | backend/algorithms/stress_analysis.cpp:454-487 | a field is left unchanged by a sweep if and only if it satisfies the discrete equation at every non-boundary interior node |
| `DiscreteEquation.SweepUnchangedExactly` | backend/algorithms/stress_analysis.cpp:454-487 | a sweep changes nothing if and only if, at every interior position not on the boundary and along every axis, (u(i+1) - 2u + u(i-1))/dx² + the same in j and k + the crack load over the stiffness is zero |
| `DiscreteEquation.VisitHalvesResidual` | backend/algorithms/stress_analysis.cpp:457-484 | a visit halves that residual at its node along every axis and changes no other node |
| `DiscreteEquation.AffineFieldKept` | backend/algorithms/stress_analysis.cpp:454-487 | without cracks a sweep leaves every affine displacement field as it is |
| `StressAnalysis.FeaMesh.RelaxNode` | backend/algorithms/stress_analysis.cpp:457-484 | the index arithmetic and the in-place loop over the axes, from the displacements of the six neighbours as they stand, give the visit whose bound and fixed points are proved |
| `StressAnalysis.FeaMesh.SweepGrid` | backend/algorithms/stress_analysis.cpp:454-487 | the nested loops over k, j, i perform the specified sweep |
| `StressAnalysis.FeaMesh.SolveElasticity` | backend/algorithms/stress_analysis.cpp:449-488 | the result is that of 50 sweeps; from rest no displacement component exceeds 50 times the largest scaled source |
| `StressSmoothing.CauchySchwarz` | backend/algorithms/stress_analysis.cpp:591-596 | the Cauchy-Schwarz inequality for the von Mises form on stress tensors |
| `StressSmoothing.AverageWithin` | backend/algorithms/stress_analysis.cpp:623-662 | a non-negatively weighted average lies between the bounds of its terms, component by component |
| `StressSmoothing.SumDominates` | backend/algorithms/stress_analysis.cpp:623-662 | the von Mises value stored with a sum of terms is at least the von Mises of the summed tensor |
| `SmoothingMeaning.VonMisesFormula` | backend/algorithms/stress_analysis.cpp:591-598 | its square is half the sum of the squared differences of the normal stresses plus three times that of the squared shears |
| `SmoothingMeaning.VonMisesZeroExactly` | backend/algorithms/stress_analysis.cpp:591-598 | it is zero if and only if the stress is a pressure alone |
| `SmoothingMeaning.VonMisesOfPull` | backend/algorithms/stress_analysis.cpp:591-598 | for a pull along one axis it is the size of the pull |
| `SmoothingPass.NeighbourIsIdx` | backend/algorithms/stress_analysis.cpp:633-637 | the offset arithmetic reaches exactly the 27 grid neighbours |
| `SmoothingMeaning.OffsetsExactly` | backend/algorithms/stress_analysis.cpp:633-637 | the 27 offsets are all combinations of -1, 0 and 1, each once |
| `SmoothingMeaning.SmoothedIsGaussianAverage` | backend/algorithms/stress_analysis.cpp:620-662 | each smoothed component is the average over the 27 neighbours with the weights exp(-d²/4.5) of their squared distances d², and the stress stays as it was when these add up to 1e-12 or less |
| `SmoothingPass.SmoothAllPointwise` | backend/algorithms/stress_analysis.cpp:605-666 | each visited node gets the average of the copy taken before the pass; the others keep theirs, whatever the order |
| `SmoothingPass.SmoothFieldWithin` | backend/algorithms/stress_analysis.cpp:602-666 | every smoothed component of an interior node lies between the least and greatest over its 27 neighbours before smoothing; other nodes are unchanged |
| `SmoothingPass.SmoothFieldOverestimates` | backend/algorithms/stress_analysis.cpp:582-666 | after smoothing computed von Mises values, the stored value at every node is at least the von Mises of its smoothed tensor |
| `StressAnalysis.FeaMesh.ComputeVonMises` | backend/algorithms/stress_analysis.cpp:582-600 | every node gets the von Mises value of its own tensor and nothing else changes |
| `StressAnalysis.FeaMesh.SmoothStressField` | backend/algorithms/stress_analysis.cpp:602-666 | the nested loops over k, j, i with their copy perform the specified smoothing |
| `StressAnalysis.FeaMesh.SmoothNode` | backend/algorithms/stress_analysis.cpp:620-662 | the accumulating loop over the neighbours is the specified weighted average |
| `Refinement.OctantSign` | backend/algorithms/stress_analysis.cpp:193-197 | the sign is always plus or minus one |
| `Refinement.ChildrenConserve` | backend/algorithms/stress_analysis.cpp:330-358 | the eight children of a node have together its measure 8^(-level) and its measure-weighted position, in each axis |
| `RefinementPlaces.ChildCorner` | backend/algorithms/stress_analysis.cpp:330-358 | child o stands a quarter of the spacing from its parent along each axis, forward for the bits of o that are set; one level up, unmarked, its density scaled by 0.9 to 1.1, all else inherited |
| `Refinement.RefineConserves` | backend/algorithms/stress_analysis.cpp:309-380 | for any marking: measure and weighted position kept, levels within the limit, no change at the cap; below it the mesh grows by seven for each eligible node, up to (cap - 1) / 8 of them |
| `Refinement.SplitCountExactly` | backend/algorithms/stress_analysis.cpp:319-362 | the loop splits exactly the lesser of the number of marked nodes below the level limit and (cap - 1) / 8 |
| `RefinementPlaces.SplitExactly` | backend/algorithms/stress_analysis.cpp:319-362 | a node is split if and only if it is marked, below the level limit, and among the first (cap - 1) / 8 such nodes |
| `RefinementPlaces.RefinedHolds` | backend/algorithms/stress_analysis.cpp:309-371 | in the refined mesh every such node is replaced by its eight children and every other node is kept |
| `Refinement.LimitExceededExactly` | backend/algorithms/stress_analysis.cpp:312-371 | from below the cap, the refined mesh exceeds it if and only if the node count plus seven times that number does |
| `Refinement.LargestMeshAttained` | backend/algorithms/stress_analysis.cpp:312-371 | for every cap the mesh of cap - 1 marked nodes is refined to cap - 1 + 7·((cap - 1) / 8) nodes, the most there can be |
| `Refinement.LimitExceedable` | backend/algorithms/stress_analysis.cpp:312-371 | some mesh below the cap is refined past it if and only if the cap is nine or more |
| `Refinement.AdaptConserves` | backend/algorithms/stress_analysis.cpp:409-440 | the same conservation and level limit over the whole adaptive loop with any marking in each round, with at most cap - 1 + 7·((cap - 1) / 8) nodes from below the cap |
| `RefinementPlaces.AdaptRefines` | backend/algorithms/stress_analysis.cpp:409-440 | a run stops at once exactly where nothing is marked, the cap is reached or no iteration is allowed; otherwise the mesh ends with at least the nodes that splitting the marked ones makes, as far as there is room |
| `StressAnalysis.BuildChildren` | backend/algorithms/stress_analysis.cpp:330-358 | the octant loop builds the specified children |
| `StressAnalysis.FeaMesh.RefineMarkedNodes` | backend/algorithms/stress_analysis.cpp:309-380 | the two loops over the nodes build the specified new list |
| `StressAnalysis.FeaMesh.AdaptiveMeshRefinement` | backend/algorithms/stress_analysis.cpp:409-440 | the adaptive loop with its two breaks is the specified iteration |
| `Bytes.ReadBack` | backend/src/profinet_parser.cpp:7-44 | reading n bytes at an offset gives v if and only if the little-endian encoding of v stands there |
| `Bytes.ToFromLE` | simulator/main.cpp:359-384 | encoding the value of a byte string gives back the bytes |
| `Bytes.AppendLE` | simulator/main.cpp:359-372 | the append loops write exactly the little-endian bytes |
| `Bytes.FromToLE` | backend/src/profinet_parser.cpp:7-28 | the value read from the little-endian bytes of v is v |
| `Codec.BuildLaserPayload` | simulator/main.cpp:207-279 | the appending loops produce the specified laser encoding |
| `Codec.BuildVibrationPayload` | simulator/main.cpp:281-337 | the appending loops produce the specified vibration encoding |
| `Codec.ParseLaserData` | backend/src/profinet_parser.cpp:105-162 | the moving-offset loops are the specified decoder, errors included, and give back every encodable record with the cursor at the end of it |
| `Codec.ParseVibrationData` | backend/src/profinet_parser.cpp:164-195 | the moving-offset loop is the specified decoder, errors included |
| `Codec.AppendCrack` | simulator/main.cpp:238-268 | the crack and point loops append the specified encoding |
| `Codec.ParsePoints` | backend/src/profinet_parser.cpp:132-149 | the point loop with its moving offset is the specified decoder |
| `Codec.ParseCracks` | backend/src/profinet_parser.cpp:125-152 | the crack loop with its moving offset is the specified decoder |
| `Payloads.LaserRoundTrip` | backend/src/profinet_parser.cpp:105-162 | decoding an encoded laser record with any cracks, points and JSON gives back the record, cursor at its end, whatever follows |
| `Payloads.LaserReencodes` | backend/src/profinet_parser.cpp:105-162 | re-encoding a decoded laser record reproduces the bytes, if the flag byte was 0 or 1 and the JSON length was kept |
| `PayloadLayout.LaserPlaces` | simulator/main.cpp:207-279 | every field of a laser record stands at its place: ids, time, scan area, resolution, the flag at byte 56, the number of cracks, each crack behind those before it, the JSON text behind its length |
| `PayloadLayout.CrackPlaces` | simulator/main.cpp:238-268 | a crack is three 8-byte measures, the number of points in 4 bytes, and 72 bytes for each point in nine words: place, depth, width, normal, curvature |
| `Payloads.VibrationRoundTrip` | backend/src/profinet_parser.cpp:164-195 | decoding an encoded vibration record with any amplitudes gives back the record, cursor at its end |
| `Payloads.VibrationReencodes` | backend/src/profinet_parser.cpp:164-195 | re-encoding a decoded vibration record reproduces the bytes, if the JSON length was kept |
| `PayloadLayout.VibrationPlaces` | simulator/main.cpp:281-337 | every field of a vibration record stands at its place |
| `Framing.CutPartitions` | backend/src/tcp_server.cpp:27-66 | frames and leftover together are the buffer, each frame has the length it declares, and the leftover holds no frame and is under 16 + 65535 bytes |
| `Framing.CutUnique` | backend/src/tcp_server.cpp:27-66 | any split of a buffer into self-sized frames and an incomplete rest is the one the loop finds |
| `Framing.CutAppend` | backend/src/tcp_server.cpp:17-19 | cutting, appending and cutting again equals cutting the whole |
| `Framing.TcpSession.TryParseFrames` | backend/src/tcp_server.cpp:27-73 | the loop leaves the specified rest and the events of every frame cut, also when a frame's parse fails, and never resets |
| `Framing.TcpSession.OnRead` | backend/src/tcp_server.cpp:16-20 | one read cuts the old leftover plus the new bytes and never resets |
| `Framing.TcpSession.CutOneFrame` | backend/src/tcp_server.cpp:38-65 | one frame leaves the buffer, and its events follow, whether or not it parses |
| `Framing.TcpSession.ResetOnOverflow` | backend/src/tcp_server.cpp:68-72 | the buffer is cleared exactly when it exceeds 4 MiB |
| `Framing.RunSession` | backend/src/tcp_server.cpp:11-73 | after any sequence of reads, leftover and events are those of one read of all the bytes; no reset ever happens |
| `Framing.ChunkingIrrelevant` | backend/src/tcp_server.cpp:11-73 | two ways of splitting the same stream into reads give the same frames and leftover, which together are the stream |
| `Framing.PacketIsOneFrameExactly` | simulator/main.cpp:339-357 | a packet of the sensor side is cut as one frame if and only if bits 32 to 47 of its timestamp equal the payload length plus 8 |
| `Framing.ParsedPayloadIsShifted` | backend/src/profinet_parser.cpp:94-100 | of every packet of the sensor side the parser hands on four zero bytes followed by the payload, cut to the payload length modulo 2^16 |
| `Framing.ParsedIntactExactly` | backend/src/profinet_parser.cpp:94-100 | the parser hands on the payload the sensor side sent if and only if it is shorter than 2^16 bytes and all of them are zero |
| `Framing.ReceivedAsSentExactly` | simulator/main.cpp:339-357 | a packet sent on its own is cut as one frame and its payload handed on as sent if and only if bits 32 to 47 of the timestamp are the payload length plus 8 and every payload byte is zero |
| `Framing.LaserNeverReceivedAsSent` | simulator/main.cpp:207-279 | no laser record with a non-zero scan area is ever handed on as sent |
| `Framing.VibrationNeverReceivedAsSent` | simulator/main.cpp:281-337 | no vibration record with amplitudes is ever handed on as sent |
| `FrameDispatch.ParsesExactly` | backend/src/profinet_parser.cpp:71-103 | a frame parses if and only if it has 20 bytes and the payload that bytes 18 and 19 announce behind them; its type is in bytes 0 and 1; otherwise the error says whether it was under 16 bytes, under 20, or short of the payload |
| `FrameDispatch.DispatchExactly` | backend/src/tcp_server.cpp:38-65 | type 0x8001 goes to the laser decoder and callback, 0x8002 to the vibration decoder and callback, any other to none; unless decoding fails the number in bytes 4 to 7 is acknowledged, and otherwise the frame is discarded |
| `FrameDispatch.LaserFrameDelivered` | backend/src/tcp_server.cpp:49-59 | a frame of type 0x8001 with an encoded laser record as its payload delivers that record and is acknowledged |
| `FrameDispatch.VibrationFrameDelivered` | backend/src/tcp_server.cpp:52-59 | a frame of type 0x8002 with an encoded vibration record as its payload delivers that record and is acknowledged |
| `DemSimulation.ScanRowsIsPass` | backend/algorithms/dem_simulation.cpp:231-237 | the nested loops with their two breaks equal one pass over the first touching pairs, as many as there is room for |
| `DemSimulation.TouchingPairsExactly` | backend/algorithms/dem_simulation.cpp:231-234 | those pairs are exactly the touching ones, each once, in increasing order |
| `DemSimulation.CollisionsRecorded` | backend/algorithms/dem_simulation.cpp:227-238 | at most 50000 contacts, those of the first touching pairs in strictly increasing index-pair order; below the limit every touching pair is recorded |
| `ParticleMotion.ContactsExactly` | backend/algorithms/dem_simulation.cpp:193-238 | while fewer than 50000 contacts are found, a pair is recorded if and only if its distance is above 1e-15 and below the sum of the radii |
| `DemSimulation.CollisionsConserve` | backend/algorithms/dem_simulation.cpp:193-238 | collision detection changes neither the sum of all forces nor the total torque about any pivot, and nothing but forces |
| `ParticleMotion.ContactPushesApart` | backend/algorithms/dem_simulation.cpp:193-214 | with the Euclidean norm, the component of the force on the first particle towards the second, times their distance, is minus the normal force times that distance |
| `ParticleMotion.ContactRecordsForce` | backend/algorithms/dem_simulation.cpp:199-223 | the recorded normal has length one, the overlap is positive, and the force on the first particle is the recorded force against the normal |
| `ParticleMotion.NormalForceOnAxis` | backend/algorithms/dem_simulation.cpp:198-208 | for two particles on the x axis the normal force is the Hertz force of their overlap and radii, the damping force of the speed at which they part, and -1e-19·r/(6 d²) |
| `DemSimulation.GeneratedApart` | backend/algorithms/dem_simulation.cpp:120-174 | generated particles lie in the crack box, do not overlap pairwise, and have increasing ids below the count |
| `ParticleMotion.GeneratedFalling` | backend/algorithms/dem_simulation.cpp:157-171 | every generated particle is at rest, has a radius in the given range, the mass of a ball of its density, and its weight as its force |
| `ParticleMotion.GeneratedUnlessOverlapping` | backend/algorithms/dem_simulation.cpp:146-173 | a drawn particle is missing only when it would have overlapped one that was placed |
| `DemSimulation.GeneratedTouchNothing` | backend/algorithms/dem_simulation.cpp:143-174 | a collision pass over freshly generated particles records nothing and changes no force |
| `DemSimulation.ContactsNeverMoveAnything` | backend/algorithms/dem_simulation.cpp:240-285 | over any number of steps and for any contact laws, the particles are what they would be had collisions never been looked for |
| `ParticleMotion.FallsAtHalfGravity` | backend/algorithms/dem_simulation.cpp:262-285 | over any number of steps, among any other particles and under any contact laws, a free particle that is never put back keeps its horizontal velocity, loses half of 9.81·t of the vertical one, and is where that takes it |
| `ParticleMotion.PutBackExactly` | backend/algorithms/dem_simulation.cpp:240-260 | a free particle is left alone unless along some axis it is farther from the origin than each of the three extents; then it is put back into the crack at rest; a fixed one loses its velocity and force |
| `DemSimulation.DEMSimulation.GenerateParticles` | backend/algorithms/dem_simulation.cpp:143-174 | the placement loop, with its overlap search, yields the specified particles, apart and inside the crack |
| `DemSimulation.DEMSimulation.ComputeContactForces` | backend/algorithms/dem_simulation.cpp:193-225 | equal and opposite forces on a touching pair and one contact; nothing for any other pair |
| `DemSimulation.DEMSimulation.DetectCollisions` | backend/algorithms/dem_simulation.cpp:227-238 | the in-place loops give the specified forces and contacts, at most 50000, with the total force kept |
| `DemSimulation.DEMSimulation.ApplyBoundaryConditions` | backend/algorithms/dem_simulation.cpp:240-260 | the in-place loop confines every particle, drawing random points in particle order |
| `DemSimulation.DEMSimulation.Step` | backend/algorithms/dem_simulation.cpp:280-285 | one step is the specified one, in its order: velocities, collisions, positions, boundary |
| `RepairTool.RunConsistent` | frontend/js/virtual-repair-tool.js:200-554 | over any run of strokes, frames, resets and radius changes: the log lists exactly the flagged points once each, counters match, a crack is closed if and only if its repaired ratio has reached the threshold, animating cracks are closed |
| `RepairTool.RunCounters` | frontend/js/virtual-repair-tool.js:200-243 | in every such run over distinct ids: global counter = sum of per-crack counts = log length, at most the total, per crack and overall |
| `RepairTool.CountersAgree` | frontend/js/virtual-repair-tool.js:218-231 | in every consistent state the log has as many entries as there are flagged points, and that number is the global counter and the sum of the counts |
| `RepairTool.StrokeRepairsExactly` | frontend/js/virtual-repair-tool.js:200-232 | with distinct ids a stroke flags exactly the points within reach of the cracks that were open |
| `RepairCompletion.BrushReach` | frontend/js/virtual-repair-tool.js:203-217 | along an axis the brush reaches a point if and only if it is at most a tenth of the radius away |
| `RepairTool.FrameKeepsYoung` | frontend/js/virtual-repair-tool.js:418-435 | after a frame a crack is animating if and only if its animation is younger than 1200 ms |
| `RepairCompletion.FramesRecorded` | frontend/js/virtual-repair-tool.js:418-435 | a frame records for every animation the part of 1200 ms that has gone, at most 1, and its number at 60 to the whole |
| `RepairTool.ResetConsistent` | frontend/js/virtual-repair-tool.js:544-554 | a reset gives a consistent tool from any state whatever |
| `RepairCompletion.ResetStartsOver` | frontend/js/virtual-repair-tool.js:544-554 | a reset after any run gives back a scene with nothing repaired, closed, moving or logged |
| `RepairCompletion.BrushSize` | frontend/js/virtual-repair-tool.js:323-325 | a radius from 0.5 to 50 is taken as it is, any other cut off to the nearer of the two |
| `RepairCompletion.PointsCounted` | frontend/js/virtual-repair-tool.js:60-81 | the total is the number of points of all cracks |
| `RepairTool.ReapplyConsistentExactlyWhenUnused` | frontend/js/virtual-repair-tool.js:43-63 | applying a tool to a scene again keeps it consistent if and only if nothing had been repaired or closed |
| `RepairTool.StrokeClosesExactly` | frontend/js/virtual-repair-tool.js:234-241 | with distinct ids a stroke closes an open crack if and only if it repairs some of its points, the ratio then reaches the threshold, and no animation of it is running |
| `RepairCompletion.StrokedCrackCloses` | frontend/js/virtual-repair-tool.js:200-435 | on a scene just applied, a crack each of whose points comes within a tenth of the radius of some stroke is closed in the end, whatever else is stroked in between; 1200 ms after the last stroke a frame leaves nothing moving |
| `RepairTool.StaleAnimationBlocksClosing` | frontend/js/virtual-repair-tool.js:348-350 | a crack whose animation is left over from before stays open through a stroke, even one that repairs its last point, whatever the ids |
| `RepairTool.StuckForGood` | frontend/js/virtual-repair-tool.js:200-243 | a crack that is open with all points repaired stays open through any run without a reset |
| `RepairTool.ReappliedCrackNeverCloses` | frontend/js/virtual-repair-tool.js:43-58 | such a crack exists: closed by a stroke, its scene applied again while it is animating, and stroked again, any crack within reach is wholly repaired and never closes |
| `RepairTool.VirtualRepairTool.InitCrackRepairData` | frontend/js/virtual-repair-tool.js:60-81 | the loop over the cracks gives each its unrepaired record and counts all points |
| `RepairTool.VirtualRepairTool.RepairOneCrack` | frontend/js/virtual-repair-tool.js:205-242 | the callback for one crack updates flags, counters, log and closure as specified |
| `RepairTool.VirtualRepairTool.RepairCracksNearPoint` | frontend/js/virtual-repair-tool.js:200-243 | the stroke over all cracks is the specified one and keeps the tool consistent |
| `RepairTool.VirtualRepairTool.AnimateCrackClosure` | frontend/js/virtual-repair-tool.js:348-379 | closing marks the crack, and starts an animation and a closure entry only if it has at least two points |
| `RepairTool.VirtualRepairTool.UpdateCrackAnimations` | frontend/js/virtual-repair-tool.js:418-435 | walking the animations while deleting finished ones handles each exactly once |
| `RepairTool.VirtualRepairTool.GetOverallProgress` | frontend/js/virtual-repair-tool.js:343-346 | the reported fraction lies between 0 and 1 and times the total is the log length |
| `RepairTool.VirtualRepairTool.ResetAll` | frontend/js/virtual-repair-tool.js:544-554 | the field updates are the specified reset |
| `RepairTool.VirtualRepairTool.SetRadius` | frontend/js/virtual-repair-tool.js:323-325 | the brush radius always ends between 0.5 and 50 |
## Left out

- Floating point: doubles are reals in all arithmetic and opaque 64-bit words in the codec, so rounding, overflow, NaN and infinities are not modelled.
- Matrices.Matrix.Inverse: how far the result is from an inverse when a non-zero entry was skipped is not bounded.
- GaussianProcesses.GaussianProcess.Train: when the factorisation fails it stops, where the original continues with divisions by zero and stores infinities or NaN.
- BayesianOptimization.BayesianOptimizer.Optimize: that the exponential makes the kernel positive semidefinite is stated as its law, not derived from a definition of `exp`; of the normal distribution only the sign and growth of its integral are used.
- Random numbers, shuffles and clocks are parameters; nothing is said about their distribution.
- LockFreeQueue.NeverTouchesFreed: addresses are not reused after deletion, so a recycled address (the ABA problem) is not modelled; with one consumer the compare-and-swap has no competitor.
- Several consumers of the queue, and memory orders weaker than sequential consistency.
- Condition variables: a wait is enabled when its predicate holds; lost and late notifications are not modelled.
- Fair scheduling: that a pool or queue which can finish does finish, when the scheduler may neglect a thread for ever.
- ThreadPool.FirstInFirstOutAtMostOnce: tasks are numbers; what they compute, and exceptions they throw, are left to the futures.
- NestedPreview.NoDeadlock: one pool whose other users submit no nested work; mesh generation itself is not modelled.
- WashburnBatch.BatchAligned: the penetration prediction is a parameter, a function of the model's configuration and the crack; its creation time stamp is not part of it.
- `predict_batch`, whose cancelled entries carry the crack's and the material's id, and predictions asked for before initialisation, where the original divides by zero.
- ElasticitySweep.SweepMaximumPrinciple: needs as many nodes as grid positions; after a refinement the rebuilt grid may have more positions than nodes.
- Strain and stress recovery, the crack density field, stress gradients and the rule that marks nodes: the refinement results hold for any marking.
- Payloads.LaserRoundTrip: JSON is an opaque byte string that a parameter accepts or rejects, and the original's initialiser for the normal vector, which lists five values for three components, is modelled as the three doubles its writer sends.
- The outer frame round trip: it holds exactly for the packets that `Framing.ReceivedAsSentExactly` names, not for the others.
- Acknowledgements sent to the sensor, socket errors, UDP.
- DemSimulation.CollisionsConserve: vector_norm, the Hertz force and the damping force are parameters, because the conservation does not depend on them.
- Boundary particles of the particle simulation are given, not generated; its summary figures and the loop around the steps are not modelled.
- RepairTool.RunConsistent: covers a tool applied once to a scene; a second application is covered by `RepairTool.ReapplyConsistentExactlyWhenUnused`.
- RepairTool.StrokeRepairsExactly: needs distinct crack ids, since two cracks with one id share a record; so does RepairTool.StrokeClosesExactly.
- Rendering, brush tubes, markers and colours of the repair tool, and its disposal.
- Database, HTTP, WebSocket, configuration, logging, calibration, and the physics of crack growth and bending.
