# Piecewise linearisation of first-order loss functions

This project models, in Dafny, the core of a Java library that builds piecewise linear
approximations of the complementary first-order loss function of a sum of random variables.
Such approximations feed (R, S) inventory models, where a replenishment cycle covers the
periods i..j.

- A **loss function** (`ComplementaryFirstOrderLossFunction`) samples its window of
  distributions from a seeded random stream. It sums each sample row, sorts the row sums into
  an empirical distribution, and evaluates `E[max(x - D, 0)]` on it. It resets its stream
  before every sample, so the sample is a function of the seed.
- Its **piecewise** extension (`PiecewiseComplementaryFirstOrderLossFunction`) takes a
  partition of the probability mass into segments. It walks the sorted sample to find each
  segment's conditional expectation. From those it evaluates the linear pieces, the pointwise
  error, the approximation error at each breakpoint and the largest of them.
- **Local search** (`LocalSearch`) chooses the partition:
  - uniform partitioning;
  - simple random sampling of a pool of normalised integer candidates;
  - hill climbing that moves `1/nbSamples` of mass between neighbouring segments;
  - coordinate descent, which runs hill climbing from the best pool member.
- **`RSCycleLinearizationParameters`** builds one loss function per cycle window `i <= j`. It
  fixes the masses with uniform partitioning and tabulates each window's conditional
  expectations and largest approximation error.
- **Latin hypercube sampling** (`LHSampling`) draws a random permutation by swaps. It places
  one point in each stratum of every dimension.

## How the model is built

- Doubles are `real`.
- The SSJ random stream is a `RandomStream` object. Its state is its position, and its
  deviates come from a `Generator` function of the seed and the position.
- A distribution is a value holding its inverse cumulative distribution function.
- Code that works step by step on arrays and streams stays imperative. Each such method is
  proved equal to a function of its inputs, and the properties of that function are proved
  as lemmas:
  - `LossFunction.Sample`, `GetEmpiricalDistribution`, `GetLossFunctionValue`;
  - `PiecewiseLossFunction.GetConditionalExpectations`;
  - `HillClimbing`, `SimpleRandomSampling`;
  - `RSCycleLinearizationParameters.Initialize`;
  - `PermRandom`, `LatinRandom`.
- The source's pure folds are functions:
  - `LossValue`, `PiecewiseValue`, `PiecewiseErrorValue`;
  - `ApproximationErrors`, `MaxApproximationError`.

Modules:

- `RealSeqs` (`real_seqs.dfy`): sums, maxima, sorting (`Arrays.sort`), normalisation and `Math.round`.
- `Random` (`random.dfy`): the seeded stream, `nextDouble`, `nextInt` and `resetStartStream`.
- `EmpiricalLoss` (`empirical_loss.dfy`): `ComplementaryFirstOrderLossFunction`.
- `PiecewiseLoss` (`piecewise_loss.dfy`): `PiecewiseComplementaryFirstOrderLossFunction`.
- `LocalSearch` (`local_search.dfy`): `LocalSearch`.
- `CycleLinearization` (`cycle_linearization.dfy`): `RSCycleLinearizationParameters`.
- `LatinHypercube` (`latin_hypercube.dfy`): `LHSampling`.

## Model

| member | source | states |
|---|---|---|
| Random.UniformInt | src/main/java/localsearch/LocalSearch.java:131 | `nextInt(a, b)` maps a deviate of [0, 1) to an integer of [a, b] |
| Random.RandomStream.constructor | src/main/java/lossfunction/ComplementaryFirstOrderLossFunction.java:59-60 | a seeded stream starts at position 0 |
| Random.RandomStream.ResetStartStream | src/main/java/lossfunction/ComplementaryFirstOrderLossFunction.java:64 | resetting puts the stream back at its start |
| Random.RandomStream.NextDouble | src/main/java/lossfunction/ComplementaryFirstOrderLossFunction.java:68 | returns the deviate at the current position and advances one position |
| Random.RandomStream.NextInt | src/main/java/localsearch/LocalSearch.java:131 | returns `UniformInt(a, b, ·)` of the current deviate and advances one position |
| RealSeqs.Insert | src/main/java/lossfunction/ComplementaryFirstOrderLossFunction.java:82 | inserting into a sorted sequence gives a sorted sequence one longer, holding the old values and the new one |
| RealSeqs.Sort | src/main/java/lossfunction/ComplementaryFirstOrderLossFunction.java:82 | the result has the input's length, is sorted and is a permutation of the input |
| RealSeqs.SortInPlace | src/main/java/lossfunction/ComplementaryFirstOrderLossFunction.java:82 | `Arrays.sort` leaves the array sorted and a permutation of its old contents |
| RealSeqs.SortedUnique | src/main/java/lossfunction/ComplementaryFirstOrderLossFunction.java:82 | two sorted permutations of one multiset are equal, so the sorted sample is determined by its values |
| RealSeqs.Normalised | src/main/java/localsearch/LocalSearch.java:129-137 | dividing positive entries by their total gives positive entries summing to 1 |
| RealSeqs.Round | src/main/java/RS/RSCycleLinearizationParameters.java:76 | `Math.round` returns the integer within half a unit of x, rounding ties up |
| RealSeqs.MaxFromZero | src/main/java/lossfunction/PiecewiseComplementaryFirstOrderLossFunction.java:172-176 | the `Math.max` fold from 0 is non-negative, bounds every entry, and is 0 or one of the entries |
| EmpiricalLoss.EmpiricalSample | src/main/java/lossfunction/ComplementaryFirstOrderLossFunction.java:74-85 | the sample holds `nbSamples` observations, is sorted, and is a permutation of the row sums |
| EmpiricalLoss.LossFunction.constructor | src/main/java/lossfunction/ComplementaryFirstOrderLossFunction.java:57-61 | the loss function keeps its window and owns a fresh stream seeded with `seed` |
| EmpiricalLoss.LossFunction.Sample | src/main/java/lossfunction/ComplementaryFirstOrderLossFunction.java:63-72 | after a reset, entry [i][j] is distribution j's inverse CDF at deviate `i*m + j`, and the stream has advanced `nbSamples*m` |
| EmpiricalLoss.LossFunction.Observations | src/main/java/lossfunction/ComplementaryFirstOrderLossFunction.java:74-85 | the empirical distribution the loss function draws: `nbSamples` observations in ascending order |
| EmpiricalLoss.LossFunction.GetEmpiricalDistribution | src/main/java/lossfunction/ComplementaryFirstOrderLossFunction.java:74-85 | the observations are exactly the sorted row sums of a fresh sample (`Observations(nbSamples)`) |
| EmpiricalLoss.ResampleIsIdentical | src/main/java/lossfunction/ComplementaryFirstOrderLossFunction.java:63-85 | two requests for the empirical distribution of one loss function return the same observations |
| EmpiricalLoss.LossFunction.GetLossFunctionValue | src/main/java/lossfunction/ComplementaryFirstOrderLossFunction.java:106-113 | the value is the loss of the freshly drawn sorted sample at x |
| EmpiricalLoss.LossValue | src/main/java/lossfunction/ComplementaryFirstOrderLossFunction.java:106-113 | the loss is never negative |
| EmpiricalLoss.LossValueBelowSample | src/main/java/lossfunction/ComplementaryFirstOrderLossFunction.java:109-111 | at or below every observation the loss is 0 |
| EmpiricalLoss.LossValueAboveSample | src/main/java/lossfunction/ComplementaryFirstOrderLossFunction.java:109-111 | at or above every observation the loss is x minus the sample mean |
| EmpiricalLoss.LossValueMonotone | src/main/java/lossfunction/ComplementaryFirstOrderLossFunction.java:109-111 | the loss is non-decreasing in x |
| EmpiricalLoss.LossSumAppend | src/main/java/lossfunction/ComplementaryFirstOrderLossFunction.java:109-111 | the accumulated loss of a concatenation is the sum of the parts |
| EmpiricalLoss.LossSumPermutation | src/main/java/lossfunction/ComplementaryFirstOrderLossFunction.java:109-111 | the accumulated loss does not depend on the order of the observations |
| EmpiricalLoss.LossOfSortedSample | src/main/java/lossfunction/ComplementaryFirstOrderLossFunction.java:82-111 | sorting the row sums does not change the loss |
| PiecewiseLoss.PartitionBounds | src/main/java/lossfunction/PiecewiseComplementaryFirstOrderLossFunction.java:61 | a partition has at least one segment and no mass above 1 |
| PiecewiseLoss.MassIsFraction | src/main/java/lossfunction/PiecewiseComplementaryFirstOrderLossFunction.java:63 | after c steps of `1/n` the running mass is `c/n` |
| PiecewiseLoss.MassBelowOne | src/main/java/lossfunction/PiecewiseComplementaryFirstOrderLossFunction.java:61 | the running mass is below 1 exactly when fewer than n steps were taken |
| PiecewiseLoss.RunFromStopsFirst | src/main/java/lossfunction/PiecewiseComplementaryFirstOrderLossFunction.java:61-68 | a segment's run ends at the first step where the running mass reaches the segment's mass or 1 |
| PiecewiseLoss.RunCoversMass | src/main/java/lossfunction/PiecewiseComplementaryFirstOrderLossFunction.java:61-63 | a segment takes at least `mass * n` observations |
| PiecewiseLoss.RunLength | src/main/java/lossfunction/PiecewiseComplementaryFirstOrderLossFunction.java:61-63 | a segment's run never exceeds the sample size; `RunCoversMass` and `RunTest` fix its length |
| PiecewiseLoss.RunTest | src/main/java/lossfunction/PiecewiseComplementaryFirstOrderLossFunction.java:61 | the test of line 61 holds exactly while the run is still open |
| PiecewiseLoss.RunsCoverMasses | src/main/java/lossfunction/PiecewiseComplementaryFirstOrderLossFunction.java:61-63 | every segment of a partition takes at least `mass * n` observations |
| PiecewiseLoss.Start | src/main/java/lossfunction/PiecewiseComplementaryFirstOrderLossFunction.java:64-67 | segment k starts at index k or later, since each earlier segment also spends its closing observation |
| PiecewiseLoss.StartCoversMass | src/main/java/lossfunction/PiecewiseComplementaryFirstOrderLossFunction.java:60-68 | segment k starts no earlier than `n * (mass of segments before k) + k` |
| PiecewiseLoss.LastSegmentNeverCloses | src/main/java/lossfunction/PiecewiseComplementaryFirstOrderLossFunction.java:60-70 | with a partition the last segment never closes inside the sample, so the index stays inside the mass array |
| PiecewiseLoss.ClosingObservationDropped | src/main/java/lossfunction/PiecewiseComplementaryFirstOrderLossFunction.java:64-67 | the observation that closes a segment belongs to no segment |
| PiecewiseLoss.SegmentExpectation | src/main/java/lossfunction/PiecewiseComplementaryFirstOrderLossFunction.java:60-70 | no contract of its own; `SegmentCloses` and `SampleRunsOut` state its value when the segment closes or when the sample runs out |
| PiecewiseLoss.SegmentCloses | src/main/java/lossfunction/PiecewiseComplementaryFirstOrderLossFunction.java:64-67 | when a segment closes, the next starts one observation later and the closed one holds its run's sum divided by its mass |
| PiecewiseLoss.SampleRunsOut | src/main/java/lossfunction/PiecewiseComplementaryFirstOrderLossFunction.java:60-70 | when the sample ends in segment k, its expectation is its cut-short run divided by its mass, and later segments keep 0 |
| PiecewiseLoss.ConditionalExpectations | src/main/java/lossfunction/PiecewiseComplementaryFirstOrderLossFunction.java:55-72 | one conditional expectation per segment |
| PiecewiseLoss.WalkBegins | src/main/java/lossfunction/PiecewiseComplementaryFirstOrderLossFunction.java:56-59 | the walk's start state: segment 0 open, mass 0, all entries 0 |
| PiecewiseLoss.WalkTakes | src/main/java/lossfunction/PiecewiseComplementaryFirstOrderLossFunction.java:61-63 | adding an observation to the open segment keeps the walk's invariant |
| PiecewiseLoss.WalkCloses | src/main/java/lossfunction/PiecewiseComplementaryFirstOrderLossFunction.java:64-67 | closing a segment keeps the invariant and leaves a next segment to open |
| PiecewiseLoss.WalkEnds | src/main/java/lossfunction/PiecewiseComplementaryFirstOrderLossFunction.java:70 | the final division gives exactly `ConditionalExpectations` |
| PiecewiseLoss.PiecewiseLossFunction.constructor | src/main/java/lossfunction/PiecewiseComplementaryFirstOrderLossFunction.java:51-53 | builds the underlying loss function with a fresh stream |
| PiecewiseLoss.PiecewiseLossFunction.GetConditionalExpectations | src/main/java/lossfunction/PiecewiseComplementaryFirstOrderLossFunction.java:55-72 | the walk over the freshly drawn sample returns exactly `ConditionalExpectations` of that sample |
| PiecewiseLoss.PiecewiseLossFunction.TakeObservation | src/main/java/lossfunction/PiecewiseComplementaryFirstOrderLossFunction.java:61-63 | the take branch adds the observation and `1/n` of mass and keeps the walk's invariant |
| PiecewiseLoss.PiecewiseLossFunction.CloseSegment | src/main/java/lossfunction/PiecewiseComplementaryFirstOrderLossFunction.java:64-67 | the close branch divides the open segment by its mass, opens the next segment, which lies inside the mass array, and keeps the invariant |
| PiecewiseLoss.PiecewiseLossFunction.FinishWalk | src/main/java/lossfunction/PiecewiseComplementaryFirstOrderLossFunction.java:70 | the final division leaves exactly `ConditionalExpectations` in the array |
| PiecewiseLoss.PiecewiseValue | src/main/java/lossfunction/PiecewiseComplementaryFirstOrderLossFunction.java:89-95 | no contract of its own; `PiecewiseValueLinear`, `PiecewiseValueMonotone` and `PiecewiseValueFullPartition` state its shape |
| PiecewiseLoss.PiecewiseValueLinear | src/main/java/lossfunction/PiecewiseComplementaryFirstOrderLossFunction.java:89-95 | piece k is linear in x: slope the mass of its first k segments, intercept minus their weighted expectations |
| PiecewiseLoss.PiecewiseValueMonotone | src/main/java/lossfunction/PiecewiseComplementaryFirstOrderLossFunction.java:89-95 | with non-negative masses each piece is non-decreasing in x |
| PiecewiseLoss.PiecewiseValueFullPartition | src/main/java/lossfunction/PiecewiseComplementaryFirstOrderLossFunction.java:89-95 | the last piece of a partition has slope 1, like the loss above the sample |
| PiecewiseLoss.Pieces | src/main/java/lossfunction/PiecewiseComplementaryFirstOrderLossFunction.java:109-115 | one piece per segment count 0..m |
| PiecewiseLoss.PiecewiseErrorValue | src/main/java/lossfunction/PiecewiseComplementaryFirstOrderLossFunction.java:105-118 | the error is the loss minus the largest of 0 and the pieces: at most the loss, at most the loss minus any piece, and attained by the loss or by one piece |
| PiecewiseLoss.MaxOfPieces | src/main/java/lossfunction/PiecewiseComplementaryFirstOrderLossFunction.java:108-115 | the maximum bounds every piece and is 0 or one of them |
| PiecewiseLoss.ApproximationErrors | src/main/java/lossfunction/PiecewiseComplementaryFirstOrderLossFunction.java:158-168 | one error per segment |
| PiecewiseLoss.ApproximationErrorBoundsPointwise | src/main/java/lossfunction/PiecewiseComplementaryFirstOrderLossFunction.java:105-118 | each breakpoint error is at least the pointwise error of the whole piecewise function at that breakpoint |
| PiecewiseLoss.MaxApproximationError | src/main/java/lossfunction/PiecewiseComplementaryFirstOrderLossFunction.java:170-179 | the largest error is non-negative, bounds every breakpoint error, and is 0 or one of them |
| LocalSearch.Minimax | src/main/java/localsearch/LocalSearch.java:63-66 | the objective is never negative |
| LocalSearch.MinimaxIsLargestError | src/main/java/localsearch/LocalSearch.java:63-66 | the objective bounds every loss function's error and is 0 or one of them |
| LocalSearch.ScoresWindows | src/main/java/localsearch/LocalSearch.java:63-66 | no contract of its own; the hypothesis that each `fs[i]` is, on partitions, the `getMaxApproximationError` of one loss function's sorted sample |
| LocalSearch.MinimaxOfWindows | src/main/java/localsearch/LocalSearch.java:63-66 | under `ScoresWindows`, the objective at a partition bounds every loss function's `MaxApproximationError` and is 0 or one of them |
| LocalSearch.MinimaxError | src/main/java/localsearch/LocalSearch.java:78-81 | the accumulation loop computes the objective of the array's contents |
| LocalSearch.CopyArray | src/main/java/localsearch/LocalSearch.java:93 | `System.arraycopy` makes the target equal to the source |
| LocalSearch.Uniform | src/main/java/localsearch/LocalSearch.java:39-40 | one mass per partition |
| LocalSearch.UniformIsPartition | src/main/java/localsearch/LocalSearch.java:39-40 | `partitions` copies of `1/partitions` form a partition |
| LocalSearch.UniformPartitioning | src/main/java/localsearch/LocalSearch.java:38-47 | returns a fresh array of `partitions` entries equal to `1/partitions` |
| LocalSearch.MoveLeft | src/main/java/localsearch/LocalSearch.java:72-77 | the left candidate keeps the length |
| LocalSearch.MoveRight | src/main/java/localsearch/LocalSearch.java:82-87 | the right candidate keeps the length |
| LocalSearch.MovesTouchOnePair | src/main/java/localsearch/LocalSearch.java:72-87 | both moves change only the entries k and k+1 |
| LocalSearch.MoveLeftConservesMass | src/main/java/localsearch/LocalSearch.java:72-77 | the left move keeps the total mass |
| LocalSearch.MoveRightConservesMass | src/main/java/localsearch/LocalSearch.java:82-87 | the right move keeps the total mass |
| LocalSearch.MoveLeftKeepsPartition | src/main/java/localsearch/LocalSearch.java:74-77 | the left move of a partition is a partition |
| LocalSearch.MoveRightCanLeavePartition | src/main/java/localsearch/LocalSearch.java:84-87 | the right move can make the next mass negative: its guard tests only entry k |
| LocalSearch.FirstImprovement | src/main/java/localsearch/LocalSearch.java:71-103 | no contract of its own; `ImprovementIsAMove` and `StuckIffNoImprovement` state what one pass of the k-scan finds |
| LocalSearch.ImprovementIsAMove | src/main/java/localsearch/LocalSearch.java:71-103 | a committed candidate is one move at some pair, keeps length and total, and strictly lowers the objective |
| LocalSearch.StuckIffNoImprovement | src/main/java/localsearch/LocalSearch.java:71-103 | a pass from pair k finds nothing exactly when no pair from k on improves |
| LocalSearch.StuckIffLocalOptimum | src/main/java/localsearch/LocalSearch.java:71-103 | a whole pass finds nothing exactly at a local optimum |
| LocalSearch.Climb | src/main/java/localsearch/LocalSearch.java:69-109 | no contract of its own; `ClimbConservesMass`, `ClimbAtLocalOptimum` and `ConvergedClimbIsLocalOptimum` state what the `do`/`while` loop keeps and where it stops |
| LocalSearch.Converges | src/main/java/localsearch/LocalSearch.java:69-109 | no contract of its own; the loop exits on its own (`!stop && length > 1` fails at line 109) within `fuel` passes |
| LocalSearch.ConvergedClimbIsLocalOptimum | src/main/java/localsearch/LocalSearch.java:69-109 | a climb that exits on its own ends at a local optimum: no left or right move of any pair lowers the objective |
| LocalSearch.ClimbConservesMass | src/main/java/localsearch/LocalSearch.java:69-109 | hill climbing keeps length and total, never raises the objective, and leaves vectors of at most one entry unchanged |
| LocalSearch.ClimbAtLocalOptimum | src/main/java/localsearch/LocalSearch.java:69-109 | from a local optimum hill climbing changes nothing |
| LocalSearch.LeftCandidate | src/main/java/localsearch/LocalSearch.java:72-77 | builds a fresh array holding the left move |
| LocalSearch.RightCandidate | src/main/java/localsearch/LocalSearch.java:82-87 | builds a fresh array holding the right move |
| LocalSearch.ImprovementPass | src/main/java/localsearch/LocalSearch.java:71-103 | one pass commits the first improving move, or leaves the array unchanged and raises `stop` when there is more than one entry |
| LocalSearch.HillClimbing | src/main/java/localsearch/LocalSearch.java:59-118 | returns the caller's array holding `Climb` of its old contents with step `1/nbSamples`, `converged` exactly when `Converges` holds of the old contents, and then a local optimum |
| LocalSearch.RawCandidate | src/main/java/localsearch/LocalSearch.java:128-134 | each raw mass is an integer between 1 and `nbSamples` |
| LocalSearch.Candidate | src/main/java/localsearch/LocalSearch.java:128-137 | one mass per partition |
| LocalSearch.CandidateIsPartition | src/main/java/localsearch/LocalSearch.java:128-137 | a normalised candidate with at least one entry is a partition |
| LocalSearch.Pool | src/main/java/localsearch/LocalSearch.java:124-140 | `population` candidates of `partitions` entries |
| LocalSearch.PoolMember | src/main/java/localsearch/LocalSearch.java:126-140 | pool member i is the candidate drawn from position `from + i*partitions` |
| LocalSearch.PoolMemberIsPartition | src/main/java/localsearch/LocalSearch.java:126-140 | every pool member with at least one entry is a partition |
| LocalSearch.PoolErrors | src/main/java/localsearch/LocalSearch.java:149-152 | one objective per pool member |
| LocalSearch.Argmin | src/main/java/localsearch/LocalSearch.java:144-157 | the running best is -1 or an index of the pool |
| LocalSearch.ArgminIsEarliestMinimum | src/main/java/localsearch/LocalSearch.java:144-157 | the running best is the earliest strict minimum below `Double.MAX_VALUE`, or -1 when no error is below it |
| LocalSearch.DrawCandidate | src/main/java/localsearch/LocalSearch.java:128-137 | draws `partitions` integers and normalises them into `Candidate` at the stream position |
| LocalSearch.Normalise | src/main/java/localsearch/LocalSearch.java:135-137 | divides every entry by the total |
| LocalSearch.DrawPool | src/main/java/localsearch/LocalSearch.java:124-140 | fills the pool with fresh arrays holding `Pool`, advancing the stream `population*partitions` |
| LocalSearch.SelectBest | src/main/java/localsearch/LocalSearch.java:144-157 | returns the pool array at `Argmin`, or null when there is none |
| LocalSearch.SimpleRandomSampling | src/main/java/localsearch/LocalSearch.java:120-166 | returns the pool member with the earliest smallest objective, or null, and advances the stream `population*partitions` |
| LocalSearch.CoordinateDescent | src/main/java/localsearch/LocalSearch.java:49-57 | returns hill climbing from the best pool member, or null |
| LocalSearch.ClimbFromBest | src/main/java/localsearch/LocalSearch.java:52-54 | climbing from the best partition of a pool keeps total mass 1 and beats or ties every pool member |
| LocalSearch.CoordinateDescentResult | src/main/java/localsearch/LocalSearch.java:49-57 | coordinate descent's vector sums to 1 and its objective is no larger than any pool member's |
| CycleLinearization.WindowIndex | src/main/java/RS/RSCycleLinearizationParameters.java:81-88 | the slot of window (i, j) lies inside the flat array |
| CycleLinearization.RowStartClosedForm | src/main/java/RS/RSCycleLinearizationParameters.java:81-88 | the windows before row i number `i(2n - i + 1)/2` |
| CycleLinearization.WindowCount | src/main/java/RS/RSCycleLinearizationParameters.java:76 | `Math.round(n(n+1)/2.0)` is exactly the number of windows `i <= j` |
| CycleLinearization.WindowIndexOrdered | src/main/java/RS/RSCycleLinearizationParameters.java:81-88 | slots follow the loop order, so each window gets its own slot |
| CycleLinearization.WindowIndexSuccessor | src/main/java/RS/RSCycleLinearizationParameters.java:81-88 | the window after (i, j) in loop order takes the next slot, and the last window takes the last slot |
| CycleLinearization.WindowIndexOnto | src/main/java/RS/RSCycleLinearizationParameters.java:76-88 | every slot of the flat array belongs to some window |
| CycleLinearization.RowContaining | src/main/java/RS/RSCycleLinearizationParameters.java:82-87 | every slot lies in the slot range of one row |
| CycleLinearization.RowStartGrows | src/main/java/RS/RSCycleLinearizationParameters.java:81-88 | the counter never goes back from one row to a later one |
| CycleLinearization.Zeros | src/main/java/RS/RSCycleLinearizationParameters.java:72 | a freshly allocated row of `partitions` zeros |
| CycleLinearization.BuildWindows | src/main/java/RS/RSCycleLinearizationParameters.java:75-89 | a fresh loss function for each window `demand[i..j]` with the shared seed, stored at [i][j] and at its slot; every slot of the flat array filled; null below the diagonal |
| CycleLinearization.EvaluateWindow | src/main/java/RS/RSCycleLinearizationParameters.java:96-97 | cell [i][j] gets the window's conditional expectations and largest error; other cells are unchanged |
| CycleLinearization.EvaluateRow | src/main/java/RS/RSCycleLinearizationParameters.java:95-100 | every window of row i is evaluated; other cells are unchanged |
| CycleLinearization.RSCycleLinearizationParameters.constructor | src/main/java/RS/RSCycleLinearizationParameters.java:60-68 | stores the parameters and leaves the tables valid |
| CycleLinearization.RSCycleLinearizationParameters.Initialize | src/main/java/RS/RSCycleLinearizationParameters.java:70-102 | fresh tables: uniform masses whenever `partitions > 0`, and for every window `i <= j` its conditional expectations and largest error; zeros below the diagonal |
| CycleLinearization.RSCycleLinearizationParameters.GetProbabilityMasses | src/main/java/RS/RSCycleLinearizationParameters.java:104-106 | the masses array of `partitions` entries: uniform and a partition whenever `partitions > 0`, which holds when there is demand |
| CycleLinearization.RSCycleLinearizationParameters.GetConditionalExpectation | src/main/java/RS/RSCycleLinearizationParameters.java:108-110 | window (i, j)'s conditional expectations for the masses, or zeros when `j < i` |
| CycleLinearization.RSCycleLinearizationParameters.GetMaximumApproximationError | src/main/java/RS/RSCycleLinearizationParameters.java:112-114 | window (i, j)'s largest approximation error, never negative |
| LatinHypercube.ClampedUniform | src/main/java/sampling/latinhypercube/LHSampling.java:50-61 | the result lies between `min(a, b)` and `max(a, b)`, and is a when a = b |
| LatinHypercube.ClampedUniformIsUniformInt | src/main/java/sampling/latinhypercube/LHSampling.java:50-61 | on a deviate of [0, 1) it agrees with `nextInt` on [min, max] |
| LatinHypercube.GetUniform | src/main/java/sampling/latinhypercube/LHSampling.java:50-61 | reads one deviate and returns `ClampedUniform` of it |
| LatinHypercube.Identity | src/main/java/sampling/latinhypercube/LHSampling.java:66-68 | entry k holds k + 1 |
| LatinHypercube.SwapStepPermutes | src/main/java/sampling/latinhypercube/LHSampling.java:72-74 | a swap exchanges entries i-1 and j-1, keeps the rest, and permutes |
| LatinHypercube.Partners | src/main/java/sampling/latinhypercube/LHSampling.java:70-71 | every swap partner j of step i satisfies `i <= j <= n` |
| LatinHypercube.Shuffle | src/main/java/sampling/latinhypercube/LHSampling.java:63-78 | `perm_random`'s result has n entries; `ShuffleIsPermutation` proves it a permutation of 1..n |
| LatinHypercube.ShuffleStepsPermute | src/main/java/sampling/latinhypercube/LHSampling.java:70-75 | any number of swap steps permutes the start |
| LatinHypercube.ShuffleFixesPrefix | src/main/java/sampling/latinhypercube/LHSampling.java:70-75 | after step i, entries before i are never touched again |
| LatinHypercube.PermutationOfIdentity | src/main/java/sampling/latinhypercube/LHSampling.java:63-78 | a permutation of 1..n has length n, values in 1..n, every value once |
| LatinHypercube.ShuffleIsPermutation | src/main/java/sampling/latinhypercube/LHSampling.java:63-78 | `perm_random` returns a permutation of 1..n: values in range, distinct, all present |
| LatinHypercube.PermRandom | src/main/java/sampling/latinhypercube/LHSampling.java:63-78 | the array holds `Shuffle` of the next n deviates, and the stream advances n |
| LatinHypercube.SwapEntries | src/main/java/sampling/latinhypercube/LHSampling.java:72-74 | swaps entries i-1 and j-1 in place |
| LatinHypercube.LatinPoint | src/main/java/sampling/latinhypercube/LHSampling.java:44 | scaling the point back by n gives its stratum `perm[j] - 1` plus the deviate |
| LatinHypercube.Place | src/main/java/sampling/latinhypercube/LHSampling.java:42-45 | one point per permutation entry |
| LatinHypercube.PlaceStratified | src/main/java/sampling/latinhypercube/LHSampling.java:42-45 | placing by a permutation of 1..n puts one point in [0, 1) in each of the n strata |
| LatinHypercube.Stratum | src/main/java/sampling/latinhypercube/LHSampling.java:44 | x lies in `[k/n, (k+1)/n)` for its stratum k |
| LatinHypercube.LatinPointInStratum | src/main/java/sampling/latinhypercube/LHSampling.java:44 | point `(p - 1 + u)/n` lies in stratum p - 1, inside [0, 1) when `1 <= p <= n` |
| LatinHypercube.PermutedStrata | src/main/java/sampling/latinhypercube/LHSampling.java:40-45 | strata read off a permutation of 1..n cover 0..n-1 once each |
| LatinHypercube.LatinRow | src/main/java/sampling/latinhypercube/LHSampling.java:38-46 | one point per sample in dimension i |
| LatinHypercube.LatinRowStratified | src/main/java/sampling/latinhypercube/LHSampling.java:38-46 | each dimension's points lie in [0, 1), one in each of the n strata |
| LatinHypercube.LatinRowFill | src/main/java/sampling/latinhypercube/LHSampling.java:42-45 | fills row i from the permutation and the next n deviates; other rows unchanged |
| LatinHypercube.LatinRandom | src/main/java/sampling/latinhypercube/LHSampling.java:33-48 | entry [i][j] is point j of `LatinRow` i, and the stream advances `2*n*dimNum` |

## Left out

- Plotting, chart series and LaTeX export (`getDistributionXYSeries`, `plot*`, the `*XYSeries*` builders): output only, no model value.
- Console output (`System.out.print*` in `LocalSearch`): side effects with no result.
- The SSJ library is foreign code. The `MRG32k3aL` stream is a `Generator` function of the seed and position, and each `Distribution` is its inverse CDF given as a parameter.
- Floating point: doubles are reals, so IEEE rounding, overflow and NaN are not modelled. `Math.round` is `floor(x + 1/2)`.
- Java `int` overflow of `n*(n+1)` in the window count, and negative sizes (`NegativeArraySizeException`): sizes are `nat`.
- The drivers and tests outside the five core classes.
- The unused generator at `RSCycleLinearizationParameters.java:78-79` and the commented-out coordinate-descent call at line 91.
- `RSCycleLinearizationParameters.constructor` and `Initialize` take a `Generator` with the seed, and require `partitions > 0` when there is demand. Otherwise the source's walk would index an empty mass array.
- `RSCycleLinearizationParameters`: `conditionalExpectation` stores each cell's contents as a `seq<real>` rather than a reference to an inner array. The source's `population` is stored and never read.
- `PiecewiseLossFunction` holds a `LossFunction` where the source extends the class.
- `PiecewiseLossFunction.GetConditionalExpectations` requires the masses to form a partition: positive, summing to 1. Other masses do reach the source's walk. Hill climbing scores right-move candidates (`LocalSearch.java:82-91`), and a right move can leave entry k+1 at zero or below (`MoveRightCanLeavePartition`). Such a candidate can also be committed at `LocalSearch.java:96-99`. On a zero mass the walk's test at line 61 fails at once and line 65 divides 0 by 0, giving NaN. On a negative mass the segment closes at once. The model covers these vectors only through the abstract `ErrorFunction` of `Minimax`.
- `MaxApproximationError`, `PiecewiseErrorValue`, `ApproximationErrors`: functions on the sorted sample. They do not track the stream position that each of the source's internal resamplings moves, since every sample resets the stream first.
- `Minimax`: each loss function's `getMaxApproximationError` is an abstract `ErrorFunction` value, and no strategy's contract ties it to `PiecewiseLoss.MaxApproximationError`. The link on partitions is the hypothesis `ScoresWindows`, used only by `MinimaxOfWindows`. Off partitions, where the right move can lead, `MaxApproximationError` is not defined and nothing is assumed.
- `UniformPartitioning` drops the loss functions and `nbSamples`, which score the printed objective at `LocalSearch.java:41-45`. With `partitions == 0` and at least one loss function, the source's scoring walks an empty mass array and throws `ArrayIndexOutOfBoundsException` at `PiecewiseComplementaryFirstOrderLossFunction.java:61`. The model returns an empty array instead. Its one caller, `Initialize`, rules that case out by requiring `partitions > 0` when there is demand.
- `HillClimbing` requires `nbSamples > 0` and `probabilityMass.Length == partitions`. It takes a `fuel` bound on the number of passes, because termination of the `do`/`while` loop is not proved, and its ghost `converged` result is `Converges`: whether the loop exited on its own within `fuel` passes.
- `CoordinateDescent` takes the same `fuel` bound.
- `SimpleRandomSampling` and `CoordinateDescent` return null when no candidate is below `Double.MAX_VALUE`. In the source, the print of `bestMass` at `LocalSearch.java:160-162` fails on that null whenever `partitions > 0`. `coordinateDescent` then passes the null to `hillClimbing`, whose scoring at `LocalSearch.java:64-65` or loop test at line 71 dereferences it. The model stops at the null and does not follow either error path.
- `LocalSearch`, `LatinHypercube`: loop bodies are helper methods with their own contracts: `ImprovementPass`, `DrawCandidate`, `DrawPool`, `SelectBest`, `SwapEntries`, `LatinRowFill`, `EvaluateRow`, `EvaluateWindow`, and the walk's `TakeObservation`, `CloseSegment` and `FinishWalk`.
