/**
 * The piecewise linearisation of the empirical first-order loss function:
 * `PiecewiseComplementaryFirstOrderLossFunction`.
 *
 * A partition of the probability mass into consecutive segments is mapped onto the sorted
 * sample. Segment k takes a run of consecutive observations, and its conditional expectation
 * is the run's share of the sample mean divided by the segment's mass. The piecewise function
 * has one linear piece per prefix of segments, and its error is measured against the
 * empirical loss.
 *
 * The walk that builds the conditional expectations is a method, as in the source. It is
 * proved to produce `ConditionalExpectations`, a closed form built from the start index and
 * run length of each segment (`Start`, `RunLength`). The folds that evaluate the
 * piecewise function and its errors are functions.
 */
module PiecewiseLoss {
  import opened RealSeqs
  import opened Random
  import opened EmpiricalLoss

  /** Positive masses that add up to 1: what the walk needs to stay inside the mass array. */
  ghost predicate IsPartition(masses: seq<real>)
  {
    (forall i :: 0 <= i < |masses| ==> masses[i] > 0.0) && Sum(masses) == 1.0
  }

  /** A partition has at least one segment, and no segment holds more than the whole mass. */
  lemma PartitionBounds(masses: seq<real>)
    requires IsPartition(masses)
    ensures |masses| >= 1
    ensures forall k :: 0 <= k < |masses| ==> masses[k] <= 1.0
  {
    forall k | 0 <= k < |masses|
      ensures masses[k] <= 1.0
    {
      SumBoundsEntry(masses, k);
    }
  }

  /**
   * The running `probabilityMass` after c observations of a sample of n: 0 plus c steps of
   * `1/n`, added one at a time as the walk does.
   */
  function Mass(c: nat, n: nat): real
    requires n > 0
  {
    if c == 0 then 0.0 else Mass(c - 1, n) + 1.0 / n as real
  }

  /** Over the reals the c steps add up to exactly `c / n`. */
  lemma {:induction false} MassIsFraction(c: nat, n: nat)
    requires n > 0
    ensures Mass(c, n) == c as real / n as real
  {
    if c > 0 {
      MassIsFraction(c - 1, n);
      assert (c - 1) as real / n as real + 1.0 / n as real == c as real / n as real;
    }
  }

  /** The mass of c observations is below 1 exactly when fewer than n are taken. */
  lemma MassBelowOne(c: nat, n: nat)
    requires n > 0
    ensures Mass(c, n) < 1.0 <==> c < n
  {
    MassIsFraction(c, n);
    assert Mass(c, n) * n as real == c as real;
  }

  /** A mass reached by c observations is at most c: `m <= c / n` gives `m * n <= c`. */
  lemma MassAtLeast(c: nat, n: nat, m: real)
    requires n > 0 && m <= Mass(c, n)
    ensures m * n as real <= c as real
  {
    MassIsFraction(c, n);
    assert Mass(c, n) * n as real == c as real;
  }

  /**
   * Counting on from c, the first count r at which the running mass `r / n` is no longer
   * below both 1 and the target `m`. Observations c .. r - 1 of the run are taken; the one
   * at r closes the segment.
   */
  function RunFrom(m: real, n: nat, c: nat): (r: nat)
    requires n > 0
    ensures c <= r
    ensures c <= n ==> r <= n
    decreases n - c
  {
    MassBelowOne(c, n);
    if Mass(c, n) < 1.0 && Mass(c, n) < m then RunFrom(m, n, c + 1) else c
  }

  /** `RunFrom` stops at the first count that fails the walk's test, and not before. */
  lemma {:induction false} RunFromStopsFirst(m: real, n: nat, c: nat)
    requires n > 0
    ensures forall k :: c <= k < RunFrom(m, n, c) ==> Mass(k, n) < 1.0 && Mass(k, n) < m
    ensures !(Mass(RunFrom(m, n, c), n) < 1.0 && Mass(RunFrom(m, n, c), n) < m)
    decreases n - c
  {
    MassBelowOne(c, n);
    if Mass(c, n) < 1.0 && Mass(c, n) < m {
      RunFromStopsFirst(m, n, c + 1);
    }
  }

  /** The number of observations a segment of mass `m` takes from a sample of `n`. */
  function RunLength(m: real, n: nat): (r: nat)
    requires n > 0
    ensures r <= n
  {
    RunFrom(m, n, 0)
  }

  /** A segment of mass at most 1 takes at least `m * n` observations. */
  lemma RunCoversMass(m: real, n: nat)
    requires n > 0 && m <= 1.0
    ensures m * n as real <= RunLength(m, n) as real
  {
    RunFromStopsFirst(m, n, 0);
    MassAtLeast(RunLength(m, n), n, m);
  }

  /** Below its length the run goes on, and at its length it stops: the walk's test, count by count. */
  lemma RunTest(m: real, n: nat, c: nat)
    requires n > 0 && c <= RunLength(m, n)
    ensures (Mass(c, n) < 1.0 && Mass(c, n) < m) <==> c < RunLength(m, n)
  {
    RunFromStopsFirst(m, n, 0);
  }

  /** The run length of every segment of `masses` over a sample of n. */
  function Runs(masses: seq<real>, n: nat): (runs: seq<nat>)
    requires n > 0
    ensures |runs| == |masses|
  {
    seq(|masses|, k requires 0 <= k < |masses| => RunLength(masses[k], n))
  }

  /** Every segment of a partition takes at least its share `m * n` of the sample. */
  lemma RunsCoverMasses(masses: seq<real>, n: nat)
    requires n > 0 && IsPartition(masses)
    ensures forall k :: 0 <= k < |masses| ==> masses[k] * n as real <= Runs(masses, n)[k] as real
  {
    PartitionBounds(masses);
    forall k | 0 <= k < |masses|
      ensures masses[k] * n as real <= Runs(masses, n)[k] as real
    {
      RunCoversMass(masses[k], n);
    }
  }

  /**
   * Index of the first observation of segment k: every earlier segment takes its run and
   * then one more observation, the one that closes it.
   */
  function Start(runs: seq<nat>, k: nat): (s: nat)
    requires k <= |runs|
    ensures k <= s
  {
    if k == 0 then 0 else Start(runs, k - 1) + runs[k - 1] + 1
  }

  /** Segment starts grow by at least one per segment. */
  lemma {:induction false} StartGrows(runs: seq<nat>, j: nat, k: nat)
    requires j <= k <= |runs|
    ensures Start(runs, j) + (k - j) <= Start(runs, k)
    decreases k
  {
    if j < k {
      StartGrows(runs, j, k - 1);
    }
  }

  /** One segment's step of `StartCoversMass`, as plain arithmetic. */
  lemma CoverStep(n: real, before: real, mk: real, s0: real, r: real, km1: real)
    requires n * before + km1 <= s0 && mk * n <= r
    ensures n * (before + mk) + (km1 + 1.0) <= s0 + r + 1.0
  {
    assert n * (before + mk) == n * before + mk * n;
  }

  /**
   * When every run takes at least its share `m * n`, the first k segments start at least at
   * `n * (mass of the first k) + k`.
   */
  lemma {:induction false} StartCoversMass(runs: seq<nat>, masses: seq<real>, n: nat, k: nat)
    requires |runs| == |masses| && k <= |masses|
    requires forall i :: 0 <= i < |masses| ==> masses[i] * n as real <= runs[i] as real
    ensures n as real * Sum(masses[..k]) + k as real <= Start(runs, k) as real
  {
    if k > 0 {
      StartCoversMass(runs, masses, n, k - 1);
      SumPrefixStep(masses, k - 1);
      CoverStep(n as real, Sum(masses[..k - 1]), masses[k - 1], Start(runs, k - 1) as real, runs[k - 1] as real, (k - 1) as real);
    }
  }

  /**
   * The walk never closes the last segment of a partition: the observation that would close
   * it lies beyond the sample. Hence the segment index stays below `probabilityMasses.length`.
   */
  lemma LastSegmentNeverCloses(masses: seq<real>, n: nat)
    requires n > 0 && IsPartition(masses)
    ensures |masses| >= 1
    ensures var runs := Runs(masses, n); n <= Start(runs, |masses| - 1) + runs[|masses| - 1]
  {
    PartitionBounds(masses);
    var p := |masses|;
    RunsCoverMasses(masses, n);
    StartCoversMass(Runs(masses, n), masses, n, p);
    assert masses[..p] == masses;
  }

  /**
   * The observation that closes segment k, at `Start(k) + runs[k]`, lies in the run of no
   * segment: it is added to no conditional expectation.
   */
  lemma {:induction false} ClosingObservationDropped(runs: seq<nat>, k: nat, j: nat)
    requires k < |runs| && j < |runs|
    ensures !(Start(runs, j) <= Start(runs, k) + runs[k] < Start(runs, j) + runs[j])
  {
    if j < k {
      assert Start(runs, j + 1) == Start(runs, j) + runs[j] + 1;
      StartGrows(runs, j + 1, k);
    } else if k < j {
      assert Start(runs, k + 1) == Start(runs, k) + runs[k] + 1;
      StartGrows(runs, k + 1, j);
    }
  }

  /** `Σ obs[t] / |obs|` for t in [lo, hi): the share of the sample mean held by those observations. */
  function RangeSum(obs: seq<real>, lo: nat, hi: nat): real
    requires lo <= hi <= |obs|
    decreases hi
  {
    if hi == lo then 0.0 else RangeSum(obs, lo, hi - 1) + obs[hi - 1] / |obs| as real
  }

  /**
   * The conditional expectation of segment k: the observations of its run (cut short at the
   * end of the sample) weighted by `1/n`, divided by the segment's mass. A segment the walk
   * never reaches keeps 0.
   */
  function SegmentExpectation(obs: seq<real>, masses: seq<real>, k: nat): real
    requires IsPartition(masses) && k < |masses|
  {
    var n := |obs|;
    if n == 0 then
      0.0
    else
      var runs := Runs(masses, n);
      var start := Start(runs, k);
      if start <= n then
        var stop := start + runs[k];
        RangeSum(obs, start, if stop <= n then stop else n) / masses[k]
      else
        0.0
  }

  /**
   * A segment closes at observation i, inside the sample: it was not the last segment, the
   * next one starts at i + 1, and its conditional expectation is the sum of its run divided
   * by its mass.
   */
  lemma {:induction false} SegmentCloses(obs: seq<real>, masses: seq<real>, k: nat, i: nat)
    requires IsPartition(masses) && 0 < |obs| && k < |masses|
    requires var runs := Runs(masses, |obs|); i < |obs| && i == Start(runs, k) + runs[k]
    ensures k + 1 < |masses|
    ensures Start(Runs(masses, |obs|), k + 1) == i + 1
    ensures SegmentExpectation(obs, masses, k) == RangeSum(obs, Start(Runs(masses, |obs|), k), i) / masses[k]
  {
    LastSegmentNeverCloses(masses, |obs|);
  }

  /**
   * The segment open when the sample runs out is divided by its mass once, over the part of
   * its run the sample holds; every later segment keeps 0.
   */
  lemma {:induction false} SampleRunsOut(obs: seq<real>, masses: seq<real>, k: nat)
    requires IsPartition(masses) && 0 < |obs| && k < |masses|
    requires var runs := Runs(masses, |obs|); Start(runs, k) <= |obs| <= Start(runs, k) + runs[k]
    ensures SegmentExpectation(obs, masses, k) == RangeSum(obs, Start(Runs(masses, |obs|), k), |obs|) / masses[k]
    ensures forall j :: k < j < |masses| ==> SegmentExpectation(obs, masses, j) == 0.0
  {
    var runs := Runs(masses, |obs|);
    forall j | k < j < |masses|
      ensures SegmentExpectation(obs, masses, j) == 0.0
    {
      assert Start(runs, k + 1) == Start(runs, k) + runs[k] + 1;
      StartGrows(runs, k + 1, j);
    }
  }

  /** The array `getConditionalExpectations` returns, for a given sorted sample. */
  function ConditionalExpectations(obs: seq<real>, masses: seq<real>): (ce: seq<real>)
    requires IsPartition(masses)
    ensures |ce| == |masses|
  {
    seq(|masses|, k requires 0 <= k < |masses| => SegmentExpectation(obs, masses, k))
  }

  /**
   * The state of the walk of `getConditionalExpectations` after i observations: `index` is the
   * open segment and `mass` its running mass; the closed segments hold their conditional
   * expectations, the open one the running sum of its run so far, the later ones 0.
   */
  ghost predicate Walked(obs: seq<real>, masses: seq<real>, i: nat, index: nat, mass: real, ce: seq<real>)
  {
    IsPartition(masses) && i <= |obs| && index < |masses| && |ce| == |masses|
    && (|obs| == 0 ==> index == 0 && ce[0] == 0.0)
    && (|obs| > 0 ==>
          var runs := Runs(masses, |obs|);
          Start(runs, index) <= i <= Start(runs, index) + runs[index]
          && mass == Mass(i - Start(runs, index), |obs|)
          && ce[index] == RangeSum(obs, Start(runs, index), i))
    && ce[..index] == ConditionalExpectations(obs, masses)[..index]
    && (forall k :: index < k < |masses| ==> ce[k] == 0.0)
  }

  /** Before the first observation: segment 0 is open, the mass is 0 and every entry is 0. */
  lemma WalkBegins(obs: seq<real>, masses: seq<real>)
    requires IsPartition(masses)
    ensures Walked(obs, masses, 0, 0, 0.0, seq(|masses|, _ => 0.0))
  {
    PartitionBounds(masses);
  }

  /**
   * While the running mass is below 1 and below the open segment's mass, observation i joins
   * the open segment, weighted `1/n`, and the mass grows by `1/n`.
   */
  lemma {:induction false} WalkTakes(obs: seq<real>, masses: seq<real>, i: nat, index: nat, mass: real, ce: seq<real>,
                                     mass': real, ce': seq<real>)
    requires Walked(obs, masses, i, index, mass, ce) && i < |obs|
    requires mass < 1.0 && mass < masses[index]
    requires mass' == mass + 1.0 / |obs| as real && ce' == ce[index := ce[index] + obs[i] / |obs| as real]
    ensures Walked(obs, masses, i + 1, index, mass', ce')
  {
    var n := |obs|;
    var runs := Runs(masses, n);
    var start := Start(runs, index);
    RunTest(masses[index], n, i - start);
  }

  /**
   * Otherwise the open segment is divided by its mass and closed, the mass restarts at 0,
   * the next segment opens, and observation i joins no segment.
   */
  lemma {:induction false} WalkCloses(obs: seq<real>, masses: seq<real>, i: nat, index: nat, mass: real, ce: seq<real>,
                                      ce': seq<real>)
    requires Walked(obs, masses, i, index, mass, ce) && i < |obs|
    requires !(mass < 1.0 && mass < masses[index])
    requires ce' == ce[index := ce[index] / masses[index]]
    ensures index + 1 < |masses|
    ensures Walked(obs, masses, i + 1, index + 1, 0.0, ce')
  {
    var n := |obs|;
    var runs := Runs(masses, n);
    var start := Start(runs, index);
    RunTest(masses[index], n, i - start);
    SegmentCloses(obs, masses, index, i);
  }

  /** After the last observation, dividing the open segment by its mass gives the result. */
  lemma {:induction false} WalkEnds(obs: seq<real>, masses: seq<real>, index: nat, mass: real, ce: seq<real>)
    requires Walked(obs, masses, |obs|, index, mass, ce)
    ensures ce[index := ce[index] / masses[index]] == ConditionalExpectations(obs, masses)
  {
    if |obs| > 0 {
      SampleRunsOut(obs, masses, index);
    }
  }

  /** `Σ_{i<k} ce[i] * m[i]`: the constant part of the k-th linear piece. */
  function WeightedSum(k: nat, masses: seq<real>, ce: seq<real>): real
    requires k <= |masses| && k <= |ce|
  {
    if k == 0 then 0.0 else WeightedSum(k - 1, masses, ce) + ce[k - 1] * masses[k - 1]
  }

  /** `getPiecewiseLossFunctionValue`: `Σ_{i<k} (x - ce[i]) * m[i]`, added term by term. */
  function PiecewiseValue(k: nat, x: real, masses: seq<real>, ce: seq<real>): real
    requires k <= |masses| && k <= |ce|
  {
    if k == 0 then 0.0 else PiecewiseValue(k - 1, x, masses, ce) + (x - ce[k - 1]) * masses[k - 1]
  }

  /** The k-th piece is the line with slope `Sum(m[..k])` and intercept `-Σ_{i<k} ce[i] * m[i]`. */
  lemma {:induction false} PiecewiseValueLinear(k: nat, x: real, masses: seq<real>, ce: seq<real>)
    requires k <= |masses| && k <= |ce|
    ensures PiecewiseValue(k, x, masses, ce) == x * Sum(masses[..k]) - WeightedSum(k, masses, ce)
  {
    if k > 0 {
      PiecewiseValueLinear(k - 1, x, masses, ce);
      SumPrefixStep(masses, k - 1);
    }
  }

  /** With non-negative masses every piece is non-decreasing in x. */
  lemma PiecewiseValueMonotone(k: nat, x: real, y: real, masses: seq<real>, ce: seq<real>)
    requires k <= |masses| && k <= |ce| && x <= y
    requires forall i :: 0 <= i < |masses| ==> masses[i] >= 0.0
    ensures PiecewiseValue(k, x, masses, ce) <= PiecewiseValue(k, y, masses, ce)
  {
    PiecewiseValueLinear(k, x, masses, ce);
    PiecewiseValueLinear(k, y, masses, ce);
    SumNonNegative(masses[..k]);
    assert (y - x) * Sum(masses[..k]) >= 0.0;
  }

  /**
   * Over a whole partition the last piece has slope 1, the slope the empirical loss takes
   * above the sample: `x - Σ ce[i] * m[i]`.
   */
  lemma PiecewiseValueFullPartition(x: real, masses: seq<real>, ce: seq<real>)
    requires IsPartition(masses) && |masses| <= |ce|
    ensures PiecewiseValue(|masses|, x, masses, ce) == x - WeightedSum(|masses|, masses, ce)
  {
    PiecewiseValueLinear(|masses|, x, masses, ce);
    assert masses[..|masses|] == masses;
  }

  /** The values of the pieces 0 .. |masses| at x, over which `getPiecewiseErrorValue` maximises. */
  function Pieces(x: real, masses: seq<real>, ce: seq<real>): (v: seq<real>)
    requires |masses| <= |ce|
    ensures |v| == |masses| + 1
  {
    seq(|masses| + 1, j requires 0 <= j <= |masses| => PiecewiseValue(j, x, masses, ce))
  }

  /**
   * `getPiecewiseErrorValue`: the empirical loss at x minus the largest of 0 and the pieces at
   * x. It is at most the loss, at most the loss minus each piece, and equal to the loss or to
   * the loss minus one of the pieces.
   */
  function PiecewiseErrorValue(obs: seq<real>, x: real, masses: seq<real>, ce: seq<real>): (r: real)
    requires |masses| <= |ce|
    ensures r <= LossValue(obs, x)
    ensures forall j :: 0 <= j <= |masses| ==> r <= LossValue(obs, x) - PiecewiseValue(j, x, masses, ce)
    ensures r == LossValue(obs, x) ||
      exists j :: 0 <= j <= |masses| && r == LossValue(obs, x) - PiecewiseValue(j, x, masses, ce)
  {
    MaxOfPieces(x, masses, ce);
    LossValue(obs, x) - MaxFromZero(Pieces(x, masses, ce))
  }

  /** The largest of 0 and the pieces is 0 or the value of one of the pieces, and bounds them all. */
  lemma {:induction false} MaxOfPieces(x: real, masses: seq<real>, ce: seq<real>)
    requires |masses| <= |ce|
    ensures forall j :: 0 <= j <= |masses| ==> PiecewiseValue(j, x, masses, ce) <= MaxFromZero(Pieces(x, masses, ce))
    ensures var top := MaxFromZero(Pieces(x, masses, ce));
      top == 0.0 || exists j :: 0 <= j <= |masses| && PiecewiseValue(j, x, masses, ce) == top
  {
    var pieces := Pieces(x, masses, ce);
    var top := MaxFromZero(pieces);
    forall j | 0 <= j <= |masses|
      ensures PiecewiseValue(j, x, masses, ce) <= top
    {
      assert pieces[j] == PiecewiseValue(j, x, masses, ce);
    }
    if top != 0.0 {
      var i :| 0 <= i < |pieces| && pieces[i] == top;
      assert 0 <= i <= |masses| && PiecewiseValue(i, x, masses, ce) == top;
      assert exists j :: 0 <= j <= |masses| && PiecewiseValue(j, x, masses, ce) == top;
    }
    assert top == MaxFromZero(Pieces(x, masses, ce));
  }

  /**
   * `getApproximationErrors`: at each conditional expectation `ce[i]`, the loss minus the
   * piece i.
   */
  function ApproximationErrors(obs: seq<real>, masses: seq<real>): (errors: seq<real>)
    requires IsPartition(masses)
    ensures |errors| == |masses|
  {
    var ce := ConditionalExpectations(obs, masses);
    seq(|masses|, i requires 0 <= i < |masses| => LossValue(obs, ce[i]) - PiecewiseValue(i, ce[i], masses, ce))
  }

  /**
   * Each approximation error is at least the pointwise error of the whole piecewise function at
   * the same point: the piece it uses is one of those `getPiecewiseErrorValue` maximises over.
   */
  lemma ApproximationErrorBoundsPointwise(obs: seq<real>, masses: seq<real>, i: nat)
    requires IsPartition(masses) && i < |masses|
    ensures var ce := ConditionalExpectations(obs, masses);
      PiecewiseErrorValue(obs, ce[i], masses, ce) <= ApproximationErrors(obs, masses)[i]
  {
    var ce := ConditionalExpectations(obs, masses);
    var r := PiecewiseErrorValue(obs, ce[i], masses, ce);
    assert r <= LossValue(obs, ce[i]) - PiecewiseValue(i, ce[i], masses, ce);
  }

  /**
   * `getMaxApproximationError`: the largest of 0 and the approximation errors, so never
   * negative, never below an error, and either 0 or one of them.
   */
  function MaxApproximationError(obs: seq<real>, masses: seq<real>): (r: real)
    requires IsPartition(masses)
    ensures r >= 0.0
    ensures forall i :: 0 <= i < |masses| ==> ApproximationErrors(obs, masses)[i] <= r
    ensures r == 0.0 || exists i :: 0 <= i < |masses| && ApproximationErrors(obs, masses)[i] == r
  {
    MaxFromZero(ApproximationErrors(obs, masses))
  }

  /**
   * `PiecewiseComplementaryFirstOrderLossFunction`: a loss function with the piecewise
   * operations. The source extends `ComplementaryFirstOrderLossFunction`; here it holds one.
   */
  class PiecewiseLossFunction {
    const exact: LossFunction

    constructor (distributions: seq<Distribution>, generator: Generator, seed: Seed)
      ensures exact.distributions == distributions
      ensures fresh(exact) && fresh(exact.randGenerator)
      ensures exact.randGenerator.generator == generator && exact.randGenerator.seed == seed
    {
      exact := new LossFunction(distributions, generator, seed);
    }

    /**
     * `getConditionalExpectations`: walks the sorted sample with a running mass and a segment
     * index. While the mass is below 1 and below the segment's target, the observation is added
     * (weighted `1/n`) to the segment; otherwise the segment is divided by its mass and closed,
     * and the observation goes nowhere. The last open segment is divided after the walk.
     */
    method GetConditionalExpectations(probabilityMasses: seq<real>, nbSamples: nat) returns (conditionalExpectations: array<real>)
      requires IsPartition(probabilityMasses)
      modifies exact.randGenerator
      ensures fresh(conditionalExpectations)
      ensures conditionalExpectations[..] == ConditionalExpectations(exact.Observations(nbSamples), probabilityMasses)
    {
      var empDistribution := exact.GetEmpiricalDistribution(nbSamples);
      ghost var obs := empDistribution[..];
      var n := empDistribution.Length;
      var p := |probabilityMasses|;
      PartitionBounds(probabilityMasses);
      conditionalExpectations := new real[p](_ => 0.0);
      var probabilityMass := 0.0;
      var index := 0;
      WalkBegins(obs, probabilityMasses);
      assert conditionalExpectations[..] == seq(p, _ => 0.0);
      for i := 0 to n
        modifies conditionalExpectations
        invariant 0 <= index < p
        invariant empDistribution[..] == obs
        invariant Walked(obs, probabilityMasses, i, index, probabilityMass, conditionalExpectations[..])
      {
        if probabilityMass < 1.0 && probabilityMass < probabilityMasses[index] {
          probabilityMass := TakeObservation(conditionalExpectations, empDistribution, obs, probabilityMasses, i, index, probabilityMass);
        } else {
          index, probabilityMass := CloseSegment(conditionalExpectations, empDistribution, obs, probabilityMasses, i, index, probabilityMass);
        }
      }
      FinishWalk(conditionalExpectations, obs, probabilityMasses, index, probabilityMass);
    }

    /**
     * The first branch of the walk's loop: observation i is added, weighted `1/n`, to the open
     * segment, and the running mass grows by `1/n`.
     */
    static method TakeObservation(conditionalExpectations: array<real>, empDistribution: array<real>, ghost obs: seq<real>,
                                  masses: seq<real>, i: nat, index: nat, probabilityMass: real)
      returns (mass: real)
      requires conditionalExpectations != empDistribution && empDistribution[..] == obs
      requires Walked(obs, masses, i, index, probabilityMass, conditionalExpectations[..])
      requires i < empDistribution.Length
      requires probabilityMass < 1.0 && probabilityMass < masses[index]
      modifies conditionalExpectations
      ensures empDistribution[..] == obs
      ensures Walked(obs, masses, i + 1, index, mass, conditionalExpectations[..])
    {
      ghost var ce := conditionalExpectations[..];
      var n := empDistribution.Length;
      conditionalExpectations[index] := conditionalExpectations[index] + empDistribution[i] / n as real;
      mass := probabilityMass + 1.0 / n as real;
      WalkTakes(obs, masses, i, index, probabilityMass, ce, mass, conditionalExpectations[..]);
    }

    /**
     * The second branch: the open segment is divided by its mass, the running mass restarts at
     * 0 and the index moves to the next segment; observation i is not added anywhere.
     */
    static method CloseSegment(conditionalExpectations: array<real>, empDistribution: array<real>, ghost obs: seq<real>,
                               masses: seq<real>, i: nat, index: nat, probabilityMass: real)
      returns (index': nat, mass: real)
      requires conditionalExpectations != empDistribution && empDistribution[..] == obs
      requires Walked(obs, masses, i, index, probabilityMass, conditionalExpectations[..])
      requires i < empDistribution.Length
      requires !(probabilityMass < 1.0 && probabilityMass < masses[index])
      modifies conditionalExpectations
      ensures index' == index + 1 && index' < |masses|
      ensures empDistribution[..] == obs
      ensures Walked(obs, masses, i + 1, index', mass, conditionalExpectations[..])
    {
      ghost var ce := conditionalExpectations[..];
      conditionalExpectations[index] := conditionalExpectations[index] / masses[index];
      WalkCloses(obs, masses, i, index, probabilityMass, ce, conditionalExpectations[..]);
      mass := 0.0;
      index' := index + 1;
    }

    /** After the last observation the open segment is divided by its mass. */
    static method FinishWalk(conditionalExpectations: array<real>, ghost obs: seq<real>, masses: seq<real>,
                             index: nat, probabilityMass: real)
      requires Walked(obs, masses, |obs|, index, probabilityMass, conditionalExpectations[..])
      modifies conditionalExpectations
      ensures conditionalExpectations[..] == ConditionalExpectations(obs, masses)
    {
      WalkEnds(obs, masses, index, probabilityMass, conditionalExpectations[..]);
      conditionalExpectations[index] := conditionalExpectations[index] / masses[index];
    }
  }
}
