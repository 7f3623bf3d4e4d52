/**
 * `RSCycleLinearizationParameters`: the piecewise linearisation parameters of the first order
 * loss function of every replenishment cycle, i.e. of every window `demand[i..j]` of
 * consecutive periods, computed under one shared partition of the probability mass.
 */
module CycleLinearization {
  import opened RealSeqs
  import opened Random
  import opened EmpiricalLoss
  import opened PiecewiseLoss
  import opened LocalSearch

  /** Number of windows whose first period is below `i`: rows 0 .. i - 1 of the triangle. */
  function RowStart(n: nat, i: nat): nat
    requires i <= n
  {
    if i == 0 then 0 else RowStart(n, i - 1) + (n - (i - 1))
  }

  /** Slot of window (i, j) when the windows are counted in lexicographic order. */
  function WindowIndex(n: nat, i: nat, j: nat): (slot: nat)
    requires i <= j < n
    ensures slot < RowStart(n, n)
  {
    RowStartGrows(n, i + 1, n);
    RowStart(n, i) + (j - i)
  }

  /** Rows 0 .. i - 1 hold `i * (2n - i + 1) / 2` windows. */
  lemma {:induction false} RowStartClosedForm(n: nat, i: nat)
    requires i <= n
    ensures 2 * RowStart(n, i) == i * (2 * n - i + 1)
  {
    if i > 0 {
      RowStartClosedForm(n, i - 1);
    }
  }

  /**
   * The array of loss functions has `Math.round(n * (n + 1) / 2.0)` slots, which is exactly the
   * number `n * (n + 1) / 2` of windows `0 <= i <= j < n`: the product is even, so the
   * rounding is exact.
   */
  lemma WindowCount(n: nat)
    ensures Round((n * (n + 1)) as real / 2.0) == RowStart(n, n)
    ensures 2 * RowStart(n, n) == n * (n + 1)
  {
    RowStartClosedForm(n, n);
    var k := RowStart(n, n);
    assert (n * (n + 1)) as real / 2.0 == k as real;
  }

  /**
   * The counter visits the slots in lexicographic order of the windows without repeats: each
   * window's slot lies below the total, and a window that comes later in the order has a
   * larger slot.
   */
  lemma {:induction false} WindowIndexOrdered(n: nat, i: nat, j: nat, i': nat, j': nat)
    requires i <= j < n && i' <= j' < n
    requires i < i' || (i == i' && j < j')
    ensures WindowIndex(n, i, j) < WindowIndex(n, i', j') < RowStart(n, n)
  {
    if i < i' {
      RowStartGrows(n, i + 1, i');
    }
  }

  /**
   * The counter leaves no gaps: the window after (i, j) in loop order takes the next slot, and
   * the last window takes the last slot.
   */
  lemma WindowIndexSuccessor(n: nat, i: nat, j: nat)
    requires i <= j < n
    ensures j + 1 < n ==> WindowIndex(n, i, j) + 1 == WindowIndex(n, i, j + 1)
    ensures j + 1 == n && i + 1 < n ==> WindowIndex(n, i, j) + 1 == WindowIndex(n, i + 1, i + 1)
    ensures j + 1 == n && i + 1 == n ==> WindowIndex(n, i, j) + 1 == RowStart(n, n)
  {
  }

  /** Every slot below the total is the slot of some window. */
  lemma WindowIndexOnto(n: nat, s: nat)
    requires s < RowStart(n, n)
    ensures exists i: nat, j: nat :: i <= j < n && WindowIndex(n, i, j) == s
  {
    var i := RowContaining(n, s, n);
    var j := i + (s - RowStart(n, i));
    assert WindowIndex(n, i, j) == s;
  }

  /** The row whose slots hold s: the i with `RowStart(n, i) <= s < RowStart(n, i + 1)`. */
  lemma {:induction false} RowContaining(n: nat, s: nat, k: nat) returns (i: nat)
    requires k <= n && s < RowStart(n, k)
    ensures i < k && RowStart(n, i) <= s < RowStart(n, i + 1)
    decreases k
  {
    if s >= RowStart(n, k - 1) {
      i := k - 1;
    } else {
      i := RowContaining(n, s, k - 1);
    }
  }

  /** More rows hold more windows. */
  lemma {:induction false} RowStartGrows(n: nat, i: nat, k: nat)
    requires i <= k <= n
    ensures RowStart(n, i) <= RowStart(n, k)
    decreases k - i
  {
    if i < k {
      RowStartGrows(n, i, k - 1);
    }
  }

  /** The sorted sample of the cycle `demand[i..j]`, drawn with the common seed. */
  function WindowSample(demand: seq<Distribution>, generator: Generator, seed: Seed, nbSamples: nat, i: nat, j: nat)
    : seq<real>
    requires i <= j < |demand|
  {
    EmpiricalSample(generator, seed, demand[i..j + 1], nbSamples)
  }

  /** `partitions` zeros: a `double[partitions]` as Java allocates it. */
  function Zeros(partitions: nat): (z: seq<real>)
    ensures |z| == partitions && forall k :: 0 <= k < partitions ==> z[k] == 0.0
  {
    seq(partitions, _ => 0.0)
  }

  /**
   * The first double loop of `initialize`: one loss function per window (i, j), built on
   * `demand[i..j]` with the common seed, stored at `[i][j]` and at slot `counter++`.
   */
  method BuildWindows(demand: seq<Distribution>, generator: Generator, seed: Seed)
    returns (cycleLossFunction: array2<PiecewiseLossFunction?>, lossFunctionArray: array<PiecewiseLossFunction?>)
    ensures fresh(cycleLossFunction) && fresh(lossFunctionArray)
    ensures cycleLossFunction.Length0 == |demand| && cycleLossFunction.Length1 == |demand|
    ensures lossFunctionArray.Length == RowStart(|demand|, |demand|)
    ensures forall i, j :: 0 <= i <= j < |demand| ==>
      var lf := cycleLossFunction[i, j];
      lf != null && fresh(lf.exact.randGenerator)
      && lf.exact.distributions == demand[i..j + 1]
      && lf.exact.randGenerator.generator == generator && lf.exact.randGenerator.seed == seed
      && lossFunctionArray[WindowIndex(|demand|, i, j)] == lf
    ensures forall i, j :: 0 <= j < i < |demand| ==> cycleLossFunction[i, j] == null
    ensures forall s :: 0 <= s < lossFunctionArray.Length ==> lossFunctionArray[s] != null
  {
    var n := |demand|;
    WindowCount(n);
    cycleLossFunction := new PiecewiseLossFunction?[n, n]((_, _) => null);
    lossFunctionArray := new PiecewiseLossFunction?[Round((n * (n + 1)) as real / 2.0)](_ => null);
    var counter := 0;
    for i := 0 to n
      invariant counter == RowStart(n, i)
      invariant counter <= lossFunctionArray.Length
      invariant forall s :: 0 <= s < counter ==> lossFunctionArray[s] != null
      invariant forall r, c :: 0 <= r < i && r <= c < n ==>
        var lf := cycleLossFunction[r, c];
        lf != null && fresh(lf.exact.randGenerator)
        && lf.exact.distributions == demand[r..c + 1]
        && lf.exact.randGenerator.generator == generator && lf.exact.randGenerator.seed == seed
        && lossFunctionArray[WindowIndex(n, r, c)] == lf
      invariant forall r, c :: 0 <= c < r < n ==> cycleLossFunction[r, c] == null
    {
      for j := i to n
        invariant counter == RowStart(n, i) + (j - i)
        invariant counter <= lossFunctionArray.Length
        invariant forall s :: 0 <= s < counter ==> lossFunctionArray[s] != null
        invariant forall r, c :: (0 <= r < i && r <= c < n) || (r == i && i <= c < j) ==>
          var lf := cycleLossFunction[r, c];
          lf != null && fresh(lf.exact.randGenerator)
          && lf.exact.distributions == demand[r..c + 1]
          && lf.exact.randGenerator.generator == generator && lf.exact.randGenerator.seed == seed
          && lossFunctionArray[WindowIndex(n, r, c)] == lf
        invariant forall r, c :: 0 <= c < r < n ==> cycleLossFunction[r, c] == null
      {
        var cycleDistribution := demand[i..j + 1];
        var lf := new PiecewiseLossFunction(cycleDistribution, generator, seed);
        cycleLossFunction[i, j] := lf;
        forall r, c | (0 <= r < i && r <= c < n) || (r == i && i <= c < j)
          ensures WindowIndex(n, r, c) != counter
        {
          WindowIndexOrdered(n, r, c, i, j);
        }
        assert counter == WindowIndex(n, i, j);
        lossFunctionArray[counter] := lf;
        counter := counter + 1;
      }
    }
  }

  /** `ce` and `err` are window (r, c)'s conditional expectations and maximum approximation error under `masses`. */
  ghost predicate WindowEvaluated(demand: seq<Distribution>, generator: Generator, seed: Seed, nbSamples: nat,
                                  masses: seq<real>, r: nat, c: nat, ce: seq<real>, err: real)
  {
    IsPartition(masses) && r <= c < |demand|
    && ce == ConditionalExpectations(WindowSample(demand, generator, seed, nbSamples, r, c), masses)
    && err == MaxApproximationError(WindowSample(demand, generator, seed, nbSamples, r, c), masses)
  }

  /**
   * One step of the second double loop of `initialize`: window (i, j)'s conditional
   * expectations and maximum approximation error, stored at `[i][j]`.
   */
  method EvaluateWindow(demand: seq<Distribution>, generator: Generator, seed: Seed, nbSamples: nat, masses: seq<real>,
                        lf: PiecewiseLossFunction, ceTable: array2<seq<real>>, errTable: array2<real>, i: nat, j: nat)
    requires IsPartition(masses) && i <= j < |demand|
    requires lf.exact.distributions == demand[i..j + 1]
    requires lf.exact.randGenerator.generator == generator && lf.exact.randGenerator.seed == seed
    requires i < ceTable.Length0 && j < ceTable.Length1 && i < errTable.Length0 && j < errTable.Length1
    modifies ceTable, errTable, lf.exact.randGenerator
    ensures WindowEvaluated(demand, generator, seed, nbSamples, masses, i, j, ceTable[i, j], errTable[i, j])
    ensures forall r, c :: 0 <= r < ceTable.Length0 && 0 <= c < ceTable.Length1 && (r != i || c != j) ==>
      ceTable[r, c] == old(ceTable[r, c])
    ensures forall r, c :: 0 <= r < errTable.Length0 && 0 <= c < errTable.Length1 && (r != i || c != j) ==>
      errTable[r, c] == old(errTable[r, c])
  {
    var conditionalExpectations := lf.GetConditionalExpectations(masses, nbSamples);
    ceTable[i, j] := conditionalExpectations[..];
    errTable[i, j] := MaxApproximationError(lf.exact.Observations(nbSamples), masses);
  }

  /** The random streams of all loss functions stored in the table. */
  function Streams(cycleLossFunction: array2<PiecewiseLossFunction?>): set<RandomStream>
    reads cycleLossFunction
  {
    set r, c | 0 <= r < cycleLossFunction.Length0 && 0 <= c < cycleLossFunction.Length1
               && cycleLossFunction[r, c] != null :: cycleLossFunction[r, c].exact.randGenerator
  }

  /** The inner loop of the second double loop of `initialize`: row i, windows (i, i) .. (i, n - 1). */
  method EvaluateRow(demand: seq<Distribution>, generator: Generator, seed: Seed, nbSamples: nat, masses: seq<real>,
                     cycleLossFunction: array2<PiecewiseLossFunction?>, ceTable: array2<seq<real>>, errTable: array2<real>,
                     i: nat)
    requires IsPartition(masses) && i < |demand|
    requires cycleLossFunction.Length0 == cycleLossFunction.Length1 == |demand|
    requires ceTable.Length0 == ceTable.Length1 == errTable.Length0 == errTable.Length1 == |demand|
    requires forall c :: i <= c < |demand| ==>
      var lf := cycleLossFunction[i, c];
      lf != null && lf.exact.distributions == demand[i..c + 1]
      && lf.exact.randGenerator.generator == generator && lf.exact.randGenerator.seed == seed
    modifies ceTable, errTable, Streams(cycleLossFunction)
    ensures forall c :: i <= c < |demand| ==>
      WindowEvaluated(demand, generator, seed, nbSamples, masses, i, c, ceTable[i, c], errTable[i, c])
    ensures forall r, c :: 0 <= r < |demand| && 0 <= c < |demand| && (r != i || c < i) ==>
      ceTable[r, c] == old(ceTable[r, c]) && errTable[r, c] == old(errTable[r, c])
  {
    var n := |demand|;
    for j := i to n
      modifies ceTable, errTable, Streams(cycleLossFunction)
      invariant forall c :: i <= c < j ==>
        WindowEvaluated(demand, generator, seed, nbSamples, masses, i, c, ceTable[i, c], errTable[i, c])
      invariant forall r, c :: 0 <= r < n && 0 <= c < n && (r != i || c < i || c >= j) ==>
        ceTable[r, c] == old(ceTable[r, c]) && errTable[r, c] == old(errTable[r, c])
    {
      var lf := cycleLossFunction[i, j];
      assert lf.exact.randGenerator in Streams(cycleLossFunction);
      EvaluateWindow(demand, generator, seed, nbSamples, masses, lf, ceTable, errTable, i, j);
    }
  }

  class RSCycleLinearizationParameters {
    const demand: seq<Distribution>
    const generator: Generator
    const seed: Seed
    const nbSamples: nat
    const population: nat
    const partitions: nat
    var probabilityMasses: array<real>
    var conditionalExpectation: array2<seq<real>>
    var maximumApproximationError: array2<real>

    /**
     * The parameters after `initialize`: the uniform partition; for every window with j >= i
     * its conditional expectations and maximum approximation error under that partition; the
     * entries with j < i left at their defaults.
     */
    ghost predicate Valid()
      reads this, probabilityMasses, conditionalExpectation, maximumApproximationError
    {
      var n := |demand|;
      probabilityMasses.Length == partitions
      && conditionalExpectation.Length0 == n && conditionalExpectation.Length1 == n
      && maximumApproximationError.Length0 == n && maximumApproximationError.Length1 == n
      && (n > 0 ==> partitions > 0)
      && (partitions > 0 ==> probabilityMasses[..] == Uniform(partitions) && IsPartition(probabilityMasses[..]))
      && (forall i, j :: 0 <= i <= j < n ==>
            WindowEvaluated(demand, generator, seed, nbSamples, probabilityMasses[..], i, j,
                            conditionalExpectation[i, j], maximumApproximationError[i, j]))
      && (forall i, j :: 0 <= j < i < n ==>
            conditionalExpectation[i, j] == Zeros(partitions) && maximumApproximationError[i, j] == 0.0)
    }

    /** The constructor stores its arguments and runs `initialize`. */
    constructor (demand: seq<Distribution>, generator: Generator, seed: Seed, nbSamples: nat, population: nat,
                 partitions: nat)
      requires |demand| == 0 || partitions > 0
      ensures this.demand == demand && this.generator == generator && this.seed == seed
      ensures this.nbSamples == nbSamples && this.population == population && this.partitions == partitions
      ensures Valid()
    {
      this.demand := demand;
      this.generator := generator;
      this.seed := seed;
      this.nbSamples := nbSamples;
      this.population := population;
      this.partitions := partitions;
      probabilityMasses := new real[0];
      conditionalExpectation := new seq<real>[0, 0];
      maximumApproximationError := new real[0, 0];
      new;
      Initialize();
    }

    /**
     * `initialize`: allocates the tables, builds the window loss functions, computes one
     * uniform partition and evaluates every window under it.
     */
    method Initialize()
      requires |demand| == 0 || partitions > 0
      modifies this
      ensures fresh(probabilityMasses) && fresh(conditionalExpectation) && fresh(maximumApproximationError)
      ensures Valid()
    {
      var n := |demand|;
      var ceTable := new seq<real>[n, n]((_, _) => Zeros(partitions));
      var errTable := new real[n, n]((_, _) => 0.0);
      var cycleLossFunction, lossFunctionArray := BuildWindows(demand, generator, seed);
      var masses := UniformPartitioning(partitions);
      if partitions > 0 {
        UniformIsPartition(partitions);
      }
      var shared := masses[..];
      assert n > 0 ==> IsPartition(shared);
      for i := 0 to n
        modifies ceTable, errTable, Streams(cycleLossFunction)
        invariant forall r, c :: 0 <= r < i && r <= c < n ==>
          WindowEvaluated(demand, generator, seed, nbSamples, shared, r, c, ceTable[r, c], errTable[r, c])
        invariant forall r, c :: 0 <= r < n && 0 <= c < n && (r >= i || c < r) ==>
          ceTable[r, c] == Zeros(partitions) && errTable[r, c] == 0.0
      {
        EvaluateRow(demand, generator, seed, nbSamples, shared, cycleLossFunction, ceTable, errTable, i);
      }
      probabilityMasses := masses;
      conditionalExpectation := ceTable;
      maximumApproximationError := errTable;
    }

    /** `getProbabilityMasses`: the shared partition. */
    method GetProbabilityMasses() returns (r: array<real>)
      requires Valid()
      ensures r == probabilityMasses && r.Length == partitions
      ensures partitions > 0 ==> r[..] == Uniform(partitions) && IsPartition(r[..])
      ensures |demand| > 0 ==> IsPartition(r[..])
    {
      r := probabilityMasses;
    }

    /** `getConditionalExpectation(i, j)`: the stored entry `[i][j]`. */
    method GetConditionalExpectation(i: nat, j: nat) returns (r: seq<real>)
      requires Valid() && i < |demand| && j < |demand|
      ensures r == conditionalExpectation[i, j]
      ensures |r| == partitions
      ensures i <= j ==> r == ConditionalExpectations(WindowSample(demand, generator, seed, nbSamples, i, j), probabilityMasses[..])
      ensures j < i ==> r == Zeros(partitions)
    {
      r := conditionalExpectation[i, j];
    }

    /** `getMaximumApproximationError(i, j)`: the stored entry `[i][j]`, never negative. */
    method GetMaximumApproximationError(i: nat, j: nat) returns (r: real)
      requires Valid() && i < |demand| && j < |demand|
      ensures r == maximumApproximationError[i, j]
      ensures r >= 0.0
      ensures i <= j ==> r == MaxApproximationError(WindowSample(demand, generator, seed, nbSamples, i, j), probabilityMasses[..])
    {
      r := maximumApproximationError[i, j];
    }
  }
}
