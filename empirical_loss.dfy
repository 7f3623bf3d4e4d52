/**
 * The empirical (sampled) first-order loss function of a sum of independent random
 * variables: `ComplementaryFirstOrderLossFunction`.
 *
 * A loss function owns a random stream. Every request for the sample resets that stream
 * before drawing, so the sorted sample is a pure function of the generator, the seed, the
 * distributions and the sample count: `EmpiricalSample` below. The methods of the class do
 * the drawing step by step, in place, as the source does, and are proved to produce it.
 */
module EmpiricalLoss {
  import opened RealSeqs
  import opened Random

  /** A probability distribution, seen only through its inverse cumulative distribution function. */
  datatype Distribution = Distribution(inverseF: real -> real)

  /** Entry [i][j] of the sample matrix: distribution j at the (i*m + j)-th deviate, read row-major. */
  function SampleEntry(g: Generator, seed: Seed, dists: seq<Distribution>, i: nat, j: nat): real
    requires j < |dists|
  {
    dists[j].inverseF(g(seed, i * |dists| + j))
  }

  /** Row i of the sample matrix: one draw from each distribution of the window. */
  function SampleRow(g: Generator, seed: Seed, dists: seq<Distribution>, i: nat): (row: seq<real>)
    ensures |row| == |dists|
  {
    seq(|dists|, j requires 0 <= j < |dists| => SampleEntry(g, seed, dists, i, j))
  }

  /** The observations before sorting: observation i is the sum of row i. */
  function RowSums(g: Generator, seed: Seed, dists: seq<Distribution>, nbSamples: nat): (sums: seq<real>)
    ensures |sums| == nbSamples
  {
    seq(nbSamples, i requires 0 <= i < nbSamples => Sum(SampleRow(g, seed, dists, i)))
  }

  /**
   * The empirical sample: the row sums in ascending order. It depends on nothing but the
   * generator, the seed, the distributions and the sample count.
   */
  function EmpiricalSample(g: Generator, seed: Seed, dists: seq<Distribution>, nbSamples: nat): (obs: seq<real>)
    ensures |obs| == nbSamples
    ensures Sorted(obs)
    ensures multiset(obs) == multiset(RowSums(g, seed, dists, nbSamples))
  {
    Sort(RowSums(g, seed, dists, nbSamples))
  }

  /** `Σ max(x - obs_i, 0) / n` over `obs`, accumulated left to right. */
  function LossSum(obs: seq<real>, x: real, n: real): (r: real)
    requires n > 0.0
    ensures r >= 0.0
  {
    if |obs| == 0 then 0.0 else LossSum(obs[..|obs| - 1], x, n) + Max(x - obs[|obs| - 1], 0.0) / n
  }

  /** `getLossFunctionValue` on a given sample: the average of `max(x - obs_i, 0)`. */
  function LossValue(obs: seq<real>, x: real): (r: real)
    ensures r >= 0.0
  {
    if |obs| == 0 then 0.0 else LossSum(obs, x, |obs| as real)
  }

  /** At or below every observation the loss is 0. */
  lemma {:induction false} LossSumBelowSample(obs: seq<real>, x: real, n: real)
    requires n > 0.0
    requires forall i :: 0 <= i < |obs| ==> x <= obs[i]
    ensures LossSum(obs, x, n) == 0.0
  {
    if |obs| > 0 {
      LossSumBelowSample(obs[..|obs| - 1], x, n);
    }
  }

  /** At or below every observation `getLossFunctionValue` returns 0. */
  lemma LossValueBelowSample(obs: seq<real>, x: real)
    requires forall i :: 0 <= i < |obs| ==> x <= obs[i]
    ensures LossValue(obs, x) == 0.0
  {
    if |obs| > 0 {
      LossSumBelowSample(obs, x, |obs| as real);
    }
  }

  /** The loss is non-decreasing in x. */
  lemma {:induction false} LossSumMonotone(obs: seq<real>, x: real, y: real, n: real)
    requires n > 0.0 && x <= y
    ensures LossSum(obs, x, n) <= LossSum(obs, y, n)
  {
    if |obs| > 0 {
      LossSumMonotone(obs[..|obs| - 1], x, y, n);
      var o := obs[|obs| - 1];
      assert Max(x - o, 0.0) <= Max(y - o, 0.0);
      DivideMonotone(Max(x - o, 0.0), Max(y - o, 0.0), n);
    }
  }

  /** `getLossFunctionValue` is non-decreasing in x. */
  lemma LossValueMonotone(obs: seq<real>, x: real, y: real)
    requires x <= y
    ensures LossValue(obs, x) <= LossValue(obs, y)
  {
    if |obs| > 0 {
      LossSumMonotone(obs, x, y, |obs| as real);
    }
  }

  /** At or above every observation the loss is linear: `|obs| * x / n - Sum(obs) / n`. */
  lemma {:induction false} LossSumAboveSample(obs: seq<real>, x: real, n: real)
    requires n > 0.0
    requires forall i :: 0 <= i < |obs| ==> obs[i] <= x
    ensures LossSum(obs, x, n) == (|obs| as real * x - Sum(obs)) / n
  {
    if |obs| > 0 {
      LossSumAboveSample(obs[..|obs| - 1], x, n);
    }
  }

  /** At or above every observation `getLossFunctionValue` is x minus the sample mean. */
  lemma LossValueAboveSample(obs: seq<real>, x: real)
    requires |obs| > 0
    requires forall i :: 0 <= i < |obs| ==> obs[i] <= x
    ensures LossValue(obs, x) == x - Sum(obs) / |obs| as real
  {
    LossSumAboveSample(obs, x, |obs| as real);
  }

  /** The loss of a concatenation is the sum of the losses of its parts. */
  lemma {:induction false} LossSumAppend(u: seq<real>, w: seq<real>, x: real, n: real)
    requires n > 0.0
    ensures LossSum(u + w, x, n) == LossSum(u, x, n) + LossSum(w, x, n)
    decreases |w|
  {
    if |w| == 0 {
      assert u + w == u;
    } else {
      assert (u + w)[..|u + w| - 1] == u + w[..|w| - 1];
      LossSumAppend(u, w[..|w| - 1], x, n);
    }
  }

  /** Taking observation j out of a sample removes its one term from the loss. */
  lemma LossSumRemove(b: seq<real>, j: nat, x: real, n: real)
    requires n > 0.0 && j < |b|
    ensures LossSum(b, x, n) == LossSum(b[..j] + b[j + 1..], x, n) + Max(x - b[j], 0.0) / n
  {
    var v := b[j];
    assert b == b[..j] + [v] + b[j + 1..];
    LossSumAppend(b[..j] + [v], b[j + 1..], x, n);
    LossSumAppend(b[..j], [v], x, n);
    LossSumAppend(b[..j], b[j + 1..], x, n);
    assert [v][..0] == [];
  }

  /** Taking entry j out of a sequence takes one copy of it out of its multiset. */
  lemma MultisetRemove(b: seq<real>, j: nat)
    requires j < |b|
    ensures multiset(b[..j] + b[j + 1..]) == multiset(b) - multiset{b[j]}
  {
    assert b == b[..j] + [b[j]] + b[j + 1..];
    assert multiset(b) == multiset(b[..j]) + multiset{b[j]} + multiset(b[j + 1..]);
  }

  /** The loss does not depend on the order of the observations. */
  lemma {:induction false} LossSumPermutation(a: seq<real>, b: seq<real>, x: real, n: real)
    requires n > 0.0
    requires multiset(a) == multiset(b)
    ensures LossSum(a, x, n) == LossSum(b, x, n)
    decreases |a|
  {
    if |a| == 0 {
      assert |b| == |multiset(b)| == 0;
    } else {
      var last := |a| - 1;
      var v := a[last];
      assert v in multiset(b);
      var j :| 0 <= j < |b| && b[j] == v;
      MultisetRemove(b, j);
      MultisetRemove(a, last);
      assert a[..last] + a[last + 1..] == a[..last];
      LossSumPermutation(a[..last], b[..j] + b[j + 1..], x, n);
      LossSumRemove(b, j, x, n);
    }
  }

  /**
   * Sorting does not change the loss: `getLossFunctionValue` equals the average of
   * `max(x - s, 0)` over the unsorted row sums.
   */
  lemma LossOfSortedSample(g: Generator, seed: Seed, dists: seq<Distribution>, nbSamples: nat, x: real)
    ensures LossValue(EmpiricalSample(g, seed, dists, nbSamples), x) == LossValue(RowSums(g, seed, dists, nbSamples), x)
  {
    if nbSamples > 0 {
      LossSumPermutation(EmpiricalSample(g, seed, dists, nbSamples), RowSums(g, seed, dists, nbSamples), x, nbSamples as real);
    }
  }

  /** `ComplementaryFirstOrderLossFunction`: a window of distributions and its own random stream. */
  class LossFunction {
    const distributions: seq<Distribution>
    const randGenerator: RandomStream

    /** The constructor creates the stream and seeds it. */
    constructor (distributions: seq<Distribution>, generator: Generator, seed: Seed)
      ensures this.distributions == distributions
      ensures fresh(randGenerator)
      ensures randGenerator.generator == generator && randGenerator.seed == seed
    {
      this.distributions := distributions;
      randGenerator := new RandomStream(generator, seed);
    }

    /** The sorted sample of `nbSamples` observations this loss function draws on every request. */
    function Observations(nbSamples: nat): (obs: seq<real>)
      ensures |obs| == nbSamples && Sorted(obs)
    {
      EmpiricalSample(randGenerator.generator, randGenerator.seed, distributions, nbSamples)
    }

    /** `sample`: resets the stream, then fills an `nbSamples x m` matrix row by row. */
    method Sample(nbSamples: nat) returns (sampleMatrix: array2<real>)
      modifies randGenerator
      ensures fresh(sampleMatrix)
      ensures sampleMatrix.Length0 == nbSamples && sampleMatrix.Length1 == |distributions|
      ensures forall i, j :: 0 <= i < nbSamples && 0 <= j < |distributions| ==>
        sampleMatrix[i, j] == SampleEntry(randGenerator.generator, randGenerator.seed, distributions, i, j)
      ensures randGenerator.position == nbSamples * |distributions|
    {
      randGenerator.ResetStartStream();
      var m := |distributions|;
      sampleMatrix := new real[nbSamples, m];
      for i := 0 to nbSamples
        invariant randGenerator.position == i * m
        invariant forall r, j :: 0 <= r < i && 0 <= j < m ==>
          sampleMatrix[r, j] == SampleEntry(randGenerator.generator, randGenerator.seed, distributions, r, j)
      {
        for j := 0 to m
          invariant randGenerator.position == i * m + j
          invariant forall r, c :: 0 <= r < i && 0 <= c < m ==>
            sampleMatrix[r, c] == SampleEntry(randGenerator.generator, randGenerator.seed, distributions, r, c)
          invariant forall c :: 0 <= c < j ==>
            sampleMatrix[i, c] == SampleEntry(randGenerator.generator, randGenerator.seed, distributions, i, c)
        {
          var u := randGenerator.NextDouble();
          sampleMatrix[i, j] := distributions[j].inverseF(u);
        }
        assert (i + 1) * m == i * m + m;
      }
    }

    /**
     * `getEmpiricalDistribution`: sums each row of a fresh sample into `observations`, then
     * sorts it in place. The result is exactly `Observations(nbSamples)`.
     */
    method GetEmpiricalDistribution(nbSamples: nat) returns (observations: array<real>)
      modifies randGenerator
      ensures fresh(observations)
      ensures observations[..] == Observations(nbSamples)
    {
      var sampleMatrix := Sample(nbSamples);
      var g, seed, m := randGenerator.generator, randGenerator.seed, |distributions|;
      observations := new real[nbSamples](_ => 0.0);
      for i := 0 to nbSamples
        modifies observations
        invariant forall r :: 0 <= r < i ==> observations[r] == Sum(SampleRow(g, seed, distributions, r))
        invariant forall r :: i <= r < nbSamples ==> observations[r] == 0.0
      {
        ghost var row := SampleRow(g, seed, distributions, i);
        for j := 0 to m
          modifies observations
          invariant observations[i] == Sum(row[..j])
          invariant forall r :: 0 <= r < i ==> observations[r] == Sum(SampleRow(g, seed, distributions, r))
          invariant forall r :: i < r < nbSamples ==> observations[r] == 0.0
        {
          SumPrefixStep(row, j);
          observations[i] := observations[i] + sampleMatrix[i, j];
        }
        assert row[..m] == row;
      }
      assert observations[..] == RowSums(g, seed, distributions, nbSamples);
      SortInPlace(observations);
      SortedUnique(observations[..], EmpiricalSample(g, seed, distributions, nbSamples));
    }

    /**
     * `getLossFunctionValue`: regenerates the sample and averages `max(x - obs_i, 0)` over it,
     * so its result depends only on the distributions, the seed, `nbSamples` and `x`.
     */
    method GetLossFunctionValue(x: real, nbSamples: nat) returns (value: real)
      modifies randGenerator
      ensures value == LossValue(Observations(nbSamples), x)
    {
      var observations := GetEmpiricalDistribution(nbSamples);
      var n := observations.Length;
      value := 0.0;
      for i := 0 to n
        modifies {}
        invariant n == 0 ==> value == 0.0
        invariant n > 0 ==> value == LossSum(observations[..i], x, n as real)
      {
        assert observations[..i + 1][..i] == observations[..i];
        value := value + Max(x - observations[i], 0.0) / n as real;
      }
      assert observations[..n] == observations[..];
    }
  }

  /** Two requests for the sample of one loss function return the same observations. */
  method ResampleIsIdentical(lf: LossFunction, nbSamples: nat) returns (first: array<real>, second: array<real>)
    modifies lf.randGenerator
    ensures first[..] == second[..]
  {
    first := lf.GetEmpiricalDistribution(nbSamples);
    second := lf.GetEmpiricalDistribution(nbSamples);
  }
}
