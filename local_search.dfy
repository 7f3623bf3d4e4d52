/**
 * `LocalSearch`: the strategies that choose the probability masses of a piecewise
 * linearisation. The objective they minimise is, for a mass vector, the largest
 * `getMaxApproximationError` over a family of loss functions, clamped below at 0.
 *
 * Each loss function's `getMaxApproximationError` enters the model as an abstract value of
 * type `ErrorFunction`, and the strategies' contracts hold for every such family. The
 * search also scores vectors that are not partitions (see `MoveRight`), where
 * `PiecewiseLoss.MaxApproximationError` is not defined; `ScoresWindows` states the link to
 * it on partitions as a hypothesis, and `MinimaxOfWindows` is what follows from it.
 */
module LocalSearch {
  import opened RealSeqs
  import opened Random
  import opened PiecewiseLoss

  /** Java's `Double.MAX_VALUE`, exactly: (2 - 2^-52) * 2^1023. */
  const DoubleMaxValue: real := 179769313486231570814527423731704356798070567525844996598917476803157260780028538760589558632766878171540458953514382464234321326889464182768467546703537516986049910576551282076245490090389328944075868508455133942304583236903222948165808559332123348274797826204144723168738177180919299881250404026184124858368.0

  /** `pwcfolfs[i].getMaxApproximationError(mass, nbSamples)` as a function of `mass`. */
  type ErrorFunction = seq<real> -> real

  /**
   * The objective: `Math.max` of 0 and every loss function's error, folded in the order of
   * `fs`.
   */
  function Minimax(fs: seq<ErrorFunction>, mass: seq<real>): (r: real)
    ensures r >= 0.0
  {
    if |fs| == 0 then 0.0 else Max(Minimax(fs[..|fs| - 1], mass), fs[|fs| - 1](mass))
  }

  /** The objective bounds every loss function's error and is either 0 or one of them. */
  lemma {:induction false} MinimaxIsLargestError(fs: seq<ErrorFunction>, mass: seq<real>)
    ensures forall i :: 0 <= i < |fs| ==> fs[i](mass) <= Minimax(fs, mass)
    ensures Minimax(fs, mass) == 0.0 || exists i :: 0 <= i < |fs| && fs[i](mass) == Minimax(fs, mass)
  {
    if |fs| > 0 {
      var init := fs[..|fs| - 1];
      MinimaxIsLargestError(init, mass);
      assert forall i :: 0 <= i < |init| ==> init[i] == fs[i];
      if Minimax(fs, mass) != 0.0 && Minimax(fs, mass) != fs[|fs| - 1](mass) {
        var i :| 0 <= i < |init| && init[i](mass) == Minimax(init, mass);
        assert fs[i](mass) == Minimax(fs, mass);
      }
    }
  }

  /**
   * `fs` scores the partitions the way the loss functions whose sorted samples are `samples`
   * do: on a partition, `fs[i]` is the `getMaxApproximationError` of window `i`.
   */
  ghost predicate ScoresWindows(fs: seq<ErrorFunction>, samples: seq<seq<real>>)
  {
    |fs| == |samples|
    && forall i, m :: 0 <= i < |fs| && IsPartition(m) ==> fs[i](m) == MaxApproximationError(samples[i], m)
  }

  /**
   * For a family that scores its windows, the objective at a partition bounds every window's
   * `getMaxApproximationError` and is either 0 or one of them.
   */
  lemma MinimaxOfWindows(fs: seq<ErrorFunction>, samples: seq<seq<real>>, m: seq<real>)
    requires ScoresWindows(fs, samples) && IsPartition(m)
    ensures forall i :: 0 <= i < |samples| ==> MaxApproximationError(samples[i], m) <= Minimax(fs, m)
    ensures Minimax(fs, m) == 0.0
            || exists i :: 0 <= i < |samples| && MaxApproximationError(samples[i], m) == Minimax(fs, m)
  {
    MinimaxIsLargestError(fs, m);
    if Minimax(fs, m) != 0.0 {
      var i :| 0 <= i < |fs| && fs[i](m) == Minimax(fs, m);
      assert MaxApproximationError(samples[i], m) == Minimax(fs, m);
    }
  }

  /** The loop over `pwcfolfs` that every strategy runs to score a mass vector. */
  method MinimaxError(fs: seq<ErrorFunction>, mass: array<real>) returns (maxApproxError: real)
    ensures maxApproxError == Minimax(fs, mass[..])
  {
    maxApproxError := 0.0;
    for i := 0 to |fs|
      invariant maxApproxError == Minimax(fs[..i], mass[..])
    {
      assert fs[..i + 1][..i] == fs[..i];
      maxApproxError := Max(maxApproxError, fs[i](mass[..]));
    }
    assert fs[..|fs|] == fs;
  }

  /** `System.arraycopy(source, 0, target, 0, source.length)`. */
  method CopyArray(source: array<real>, target: array<real>)
    requires source != target && source.Length == target.Length
    modifies target
    ensures target[..] == source[..]
  {
    for j := 0 to source.Length
      invariant forall t :: 0 <= t < j ==> target[t] == source[t]
    {
      target[j] := source[j];
    }
  }

  // ----- uniformPartitioning -----

  /** `partitions` equal masses. */
  function Uniform(partitions: nat): (u: seq<real>)
    requires partitions > 0
    ensures |u| == partitions
  {
    seq(partitions, _ => 1.0 / partitions as real)
  }

  /** Equal masses are positive and sum to 1: the uniform vector is a partition. */
  lemma {:induction false} UniformIsPartition(partitions: nat)
    requires partitions > 0
    ensures IsPartition(Uniform(partitions))
  {
    SumConstant(partitions, 1.0 / partitions as real);
  }

  /**
   * `uniformPartitioning`: an array of `partitions` entries, each `1/partitions`, whatever the
   * loss functions are (they only feed the printed minimax error).
   */
  method UniformPartitioning(partitions: nat)
    returns (probabilityMass: array<real>)
    ensures fresh(probabilityMass) && probabilityMass.Length == partitions
    ensures partitions > 0 ==> probabilityMass[..] == Uniform(partitions)
  {
    probabilityMass := new real[partitions];
    for j := 0 to partitions
      invariant forall t :: 0 <= t < j ==> probabilityMass[t] == 1.0 / partitions as real
    {
      probabilityMass[j] := 1.0 / partitions as real;
    }
  }

  // ----- hillClimbing -----

  /**
   * Candidate L at pair k: `precision` moves from entry k to entry k + 1 when entry k exceeds
   * it; otherwise the vector is unchanged.
   */
  function MoveLeft(mass: seq<real>, k: nat, precision: real): (r: seq<real>)
    requires k + 1 < |mass|
    ensures |r| == |mass|
  {
    if mass[k] > precision then mass[k := mass[k] - precision][k + 1 := mass[k + 1] + precision] else mass
  }

  /**
   * Candidate R at pair k: `precision` moves from entry k + 1 to entry k when entry k is below
   * `1 - precision`; otherwise the vector is unchanged.
   */
  function MoveRight(mass: seq<real>, k: nat, precision: real): (r: seq<real>)
    requires k + 1 < |mass|
    ensures |r| == |mass|
  {
    if mass[k] < 1.0 - precision then mass[k := mass[k] + precision][k + 1 := mass[k + 1] - precision] else mass
  }

  /** Either move changes at most the entries k and k + 1. */
  lemma {:induction false} MovesTouchOnePair(mass: seq<real>, k: nat, precision: real)
    requires k + 1 < |mass|
    ensures forall i :: 0 <= i < |mass| && i != k && i != k + 1 ==>
      MoveLeft(mass, k, precision)[i] == mass[i] && MoveRight(mass, k, precision)[i] == mass[i]
  {
  }

  /** Moving mass between two entries keeps the total. */
  lemma {:induction false} MoveLeftConservesMass(mass: seq<real>, k: nat, precision: real)
    requires k + 1 < |mass|
    ensures Sum(MoveLeft(mass, k, precision)) == Sum(mass)
  {
    if mass[k] > precision {
      SumUpdate(mass, k, mass[k] - precision);
      SumUpdate(mass[k := mass[k] - precision], k + 1, mass[k + 1] + precision);
    }
  }

  /** Moving mass between two entries keeps the total. */
  lemma {:induction false} MoveRightConservesMass(mass: seq<real>, k: nat, precision: real)
    requires k + 1 < |mass|
    ensures Sum(MoveRight(mass, k, precision)) == Sum(mass)
  {
    if mass[k] < 1.0 - precision {
      SumUpdate(mass, k, mass[k] + precision);
      SumUpdate(mass[k := mass[k] + precision], k + 1, mass[k + 1] - precision);
    }
  }

  /** The guard of the left move keeps every entry positive: a partition stays a partition. */
  lemma {:induction false} MoveLeftKeepsPartition(mass: seq<real>, k: nat, precision: real)
    requires k + 1 < |mass| && precision > 0.0
    requires IsPartition(mass)
    ensures IsPartition(MoveLeft(mass, k, precision))
  {
    MoveLeftConservesMass(mass, k, precision);
  }

  /**
   * The guard of the right move only bounds the entry that grows: the entry that shrinks can
   * drop to or below 0, so the right move can leave the set of partitions.
   */
  lemma {:induction false} MoveRightCanLeavePartition()
    ensures IsPartition([0.5, 0.005, 0.495])
    ensures MoveRight([0.5, 0.005, 0.495], 0, 0.01)[1] < 0.0
  {
    assert Sum([0.5, 0.005, 0.495]) == 1.0 by {
      assert [0.5, 0.005, 0.495][..2] == [0.5, 0.005];
      assert [0.5, 0.005][..1] == [0.5];
      assert [0.5][..0] == [];
    }
  }

  /** Neither candidate at pair k strictly lowers the objective. */
  ghost predicate NoImprovementAt(fs: seq<ErrorFunction>, mass: seq<real>, precision: real, k: nat)
    requires k + 1 < |mass|
  {
    Minimax(fs, MoveLeft(mass, k, precision)) >= Minimax(fs, mass)
    && Minimax(fs, MoveRight(mass, k, precision)) >= Minimax(fs, mass)
  }

  /** No left or right move at any adjacent pair strictly lowers the objective. */
  ghost predicate LocalOptimum(fs: seq<ErrorFunction>, mass: seq<real>, precision: real)
  {
    forall k :: 0 <= k < |mass| - 1 ==> NoImprovementAt(fs, mass, precision, k)
  }

  /** The outcome of one pass of the scan: the first improving candidate, or none. */
  datatype Scan = Improved(next: seq<real>) | Stuck

  /**
   * One pass of the `for k` loop from pair k on: the first pair whose left candidate, or else
   * whose right candidate, has a strictly smaller objective gives the new vector.
   */
  function FirstImprovement(fs: seq<ErrorFunction>, mass: seq<real>, precision: real, k: nat): Scan
    decreases |mass| - k
  {
    if k + 1 >= |mass| then
      Stuck
    else if Minimax(fs, MoveLeft(mass, k, precision)) < Minimax(fs, mass) then
      Improved(MoveLeft(mass, k, precision))
    else if Minimax(fs, MoveRight(mass, k, precision)) < Minimax(fs, mass) then
      Improved(MoveRight(mass, k, precision))
    else
      FirstImprovement(fs, mass, precision, k + 1)
  }

  /**
   * What a pass commits is one move at some pair j >= k: it has the same length and total
   * and a strictly smaller objective.
   */
  lemma {:induction false} ImprovementIsAMove(fs: seq<ErrorFunction>, mass: seq<real>, precision: real, k: nat)
    requires FirstImprovement(fs, mass, precision, k).Improved?
    ensures var next := FirstImprovement(fs, mass, precision, k).next;
      |next| == |mass| && Sum(next) == Sum(mass) && Minimax(fs, next) < Minimax(fs, mass)
      && exists j :: k <= j && j + 1 < |mass|
           && (next == MoveLeft(mass, j, precision) || next == MoveRight(mass, j, precision))
    decreases |mass| - k
  {
    if Minimax(fs, MoveLeft(mass, k, precision)) < Minimax(fs, mass) {
      MoveLeftConservesMass(mass, k, precision);
    } else if Minimax(fs, MoveRight(mass, k, precision)) < Minimax(fs, mass) {
      MoveRightConservesMass(mass, k, precision);
    } else {
      ImprovementIsAMove(fs, mass, precision, k + 1);
    }
  }

  /** A pass from pair k finds nothing exactly when no pair from k on improves. */
  lemma {:induction false} StuckIffNoImprovement(fs: seq<ErrorFunction>, mass: seq<real>, precision: real, k: nat)
    ensures FirstImprovement(fs, mass, precision, k) == Stuck
        <==> forall j :: k <= j < |mass| - 1 ==> NoImprovementAt(fs, mass, precision, j)
    decreases |mass| - k
  {
    if k + 1 < |mass| {
      StuckIffNoImprovement(fs, mass, precision, k + 1);
      if NoImprovementAt(fs, mass, precision, k) {
        assert FirstImprovement(fs, mass, precision, k) == FirstImprovement(fs, mass, precision, k + 1);
      } else {
        assert FirstImprovement(fs, mass, precision, k).Improved?;
      }
    }
  }

  /** A whole pass finds nothing exactly at a local optimum. */
  lemma {:induction false} StuckIffLocalOptimum(fs: seq<ErrorFunction>, mass: seq<real>, precision: real)
    ensures FirstImprovement(fs, mass, precision, 0) == Stuck <==> LocalOptimum(fs, mass, precision)
  {
    StuckIffNoImprovement(fs, mass, precision, 0);
  }

  /**
   * The `do ... while` loop of `hillClimbing`, allowed at most `fuel` passes: each pass
   * commits its first improving move and restarts at pair 0, until a pass finds none.
   */
  function Climb(fs: seq<ErrorFunction>, mass: seq<real>, precision: real, fuel: nat): seq<real>
    decreases fuel
  {
    if fuel == 0 then
      mass
    else
      match FirstImprovement(fs, mass, precision, 0)
      case Stuck => mass
      case Improved(next) => Climb(fs, next, precision, fuel - 1)
  }

  /**
   * The climb stops on its own within `fuel` passes: some pass, at most the `fuel`-th, finds
   * no improving move.
   */
  ghost function Converges(fs: seq<ErrorFunction>, mass: seq<real>, precision: real, fuel: nat): bool
    decreases fuel
  {
    fuel > 0
    && match FirstImprovement(fs, mass, precision, 0)
       case Stuck => true
       case Improved(next) => Converges(fs, next, precision, fuel - 1)
  }

  /** A climb that stops on its own ends at a local optimum. */
  lemma {:induction false} ConvergedClimbIsLocalOptimum(fs: seq<ErrorFunction>, mass: seq<real>, precision: real,
                                                        fuel: nat)
    requires Converges(fs, mass, precision, fuel)
    ensures LocalOptimum(fs, Climb(fs, mass, precision, fuel), precision)
    decreases fuel
  {
    match FirstImprovement(fs, mass, precision, 0)
    case Stuck =>
      StuckIffLocalOptimum(fs, mass, precision);
    case Improved(next) =>
      ConvergedClimbIsLocalOptimum(fs, next, precision, fuel - 1);
  }

  /**
   * Hill climbing keeps the length and the total mass, never raises the objective, and leaves
   * a vector of at most one entry unchanged.
   */
  lemma {:induction false} ClimbConservesMass(fs: seq<ErrorFunction>, mass: seq<real>, precision: real, fuel: nat)
    ensures var r := Climb(fs, mass, precision, fuel);
      |r| == |mass| && Sum(r) == Sum(mass) && Minimax(fs, r) <= Minimax(fs, mass)
      && (|mass| <= 1 ==> r == mass)
    decreases fuel
  {
    if fuel > 0 && FirstImprovement(fs, mass, precision, 0).Improved? {
      var next := FirstImprovement(fs, mass, precision, 0).next;
      ImprovementIsAMove(fs, mass, precision, 0);
      ClimbConservesMass(fs, next, precision, fuel - 1);
    }
  }

  /** Once a pass finds nothing, further passes change nothing. */
  lemma {:induction false} ClimbAtLocalOptimum(fs: seq<ErrorFunction>, mass: seq<real>, precision: real, fuel: nat)
    requires LocalOptimum(fs, mass, precision)
    ensures Climb(fs, mass, precision, fuel) == mass
  {
    StuckIffLocalOptimum(fs, mass, precision);
  }

  /** Candidate L of the scan: a copy of the vector with the left move at pair k applied. */
  method LeftCandidate(probabilityMass: array<real>, k: nat, precision: real) returns (probabilityMassL: array<real>)
    requires k + 1 < probabilityMass.Length
    ensures fresh(probabilityMassL)
    ensures probabilityMassL[..] == MoveLeft(probabilityMass[..], k, precision)
  {
    probabilityMassL := new real[probabilityMass.Length];
    CopyArray(probabilityMass, probabilityMassL);
    if probabilityMassL[k] > precision {
      probabilityMassL[k] := probabilityMassL[k] - precision;
      probabilityMassL[k + 1] := probabilityMassL[k + 1] + precision;
    }
  }

  /** Candidate R of the scan: a copy of the vector with the right move at pair k applied. */
  method RightCandidate(probabilityMass: array<real>, k: nat, precision: real) returns (probabilityMassR: array<real>)
    requires k + 1 < probabilityMass.Length
    ensures fresh(probabilityMassR)
    ensures probabilityMassR[..] == MoveRight(probabilityMass[..], k, precision)
  {
    probabilityMassR := new real[probabilityMass.Length];
    CopyArray(probabilityMass, probabilityMassR);
    if probabilityMassR[k] < 1.0 - precision {
      probabilityMassR[k] := probabilityMassR[k] + precision;
      probabilityMassR[k + 1] := probabilityMassR[k + 1] - precision;
    }
  }

  /**
   * One pass of the `do` body over the caller's array: builds candidates L and R at each
   * pair, commits the first strict improvement into `probabilityMass` (the `break`), and
   * raises `stop` when the last pair is reached without one.
   */
  method ImprovementPass(fs: seq<ErrorFunction>, probabilityMass: array<real>, precision: real,
                         currentApproxError: real)
    returns (stop: bool, newApproxError: real)
    requires currentApproxError == Minimax(fs, probabilityMass[..])
    modifies probabilityMass
    ensures newApproxError == Minimax(fs, probabilityMass[..])
    ensures match FirstImprovement(fs, old(probabilityMass[..]), precision, 0)
      case Stuck => probabilityMass[..] == old(probabilityMass[..]) && (stop <==> probabilityMass.Length > 1)
      case Improved(next) => probabilityMass[..] == next && !stop
  {
    var n := probabilityMass.Length;
    ghost var mass := probabilityMass[..];
    stop := false;
    newApproxError := currentApproxError;
    var k := 0;
    while k < n - 1
      invariant 0 <= k && (n > 1 ==> k <= n - 1)
      invariant probabilityMass[..] == mass
      invariant stop <==> (n > 1 && k == n - 1)
      invariant FirstImprovement(fs, mass, precision, 0) == FirstImprovement(fs, mass, precision, k)
    {
      var probabilityMassL := LeftCandidate(probabilityMass, k, precision);
      var maxApproxErrorL := MinimaxError(fs, probabilityMassL);
      var probabilityMassR := RightCandidate(probabilityMass, k, precision);
      var maxApproxErrorR := MinimaxError(fs, probabilityMassR);
      if maxApproxErrorL < newApproxError {
        CopyArray(probabilityMassL, probabilityMass);
        newApproxError := maxApproxErrorL;
        return;
      } else if maxApproxErrorR < newApproxError {
        CopyArray(probabilityMassR, probabilityMass);
        newApproxError := maxApproxErrorR;
        return;
      } else {
        if k == n - 2 {
          stop := true;
        }
      }
      k := k + 1;
    }
  }

  /**
   * `hillClimbing`: improves the caller's array in place, pass after pass, and returns that
   * same array. `fuel` bounds the number of passes; `converged` says the loop left because a
   * pass found no improving move (or the vector has at most one entry), the source's only
   * exit, which is exactly `Converges`.
   */
  method HillClimbing(fs: seq<ErrorFunction>, probabilityMass: array<real>, nbSamples: nat, partitions: nat,
                      fuel: nat)
    returns (result: array<real>, ghost converged: bool)
    requires nbSamples > 0 && probabilityMass.Length == partitions
    modifies probabilityMass
    ensures result == probabilityMass
    ensures result[..] == Climb(fs, old(probabilityMass[..]), 1.0 / nbSamples as real, fuel)
    ensures converged == Converges(fs, old(probabilityMass[..]), 1.0 / nbSamples as real, fuel)
    ensures converged ==> LocalOptimum(fs, result[..], 1.0 / nbSamples as real)
  {
    var precision := 1.0 / nbSamples as real;
    var currentApproxError := MinimaxError(fs, probabilityMass);
    var stop := false;
    var done := false;
    var passes := fuel;
    while !done && passes > 0
      invariant Climb(fs, probabilityMass[..], precision, passes) == Climb(fs, old(probabilityMass[..]), precision, fuel)
      invariant currentApproxError == Minimax(fs, probabilityMass[..])
      invariant done ==> FirstImprovement(fs, probabilityMass[..], precision, 0) == Stuck
      invariant Converges(fs, old(probabilityMass[..]), precision, fuel)
                == (done || Converges(fs, probabilityMass[..], precision, passes))
    {
      ghost var before := probabilityMass[..];
      passes := passes - 1;
      stop, currentApproxError := ImprovementPass(fs, probabilityMass, precision, currentApproxError);
      done := !(!stop && probabilityMass.Length > 1);
      if done {
        assert FirstImprovement(fs, before, precision, 0) == Stuck by {
          if probabilityMass.Length <= 1 {
            assert |before| <= 1;
          }
        }
      }
    }
    result := probabilityMass;
    converged := done;
    if done {
      StuckIffLocalOptimum(fs, result[..], precision);
    }
  }

  // ----- simpleRandomSampling -----

  /** The raw draws of one candidate: `partitions` integers of [1, nbSamples] from position `from`. */
  function RawCandidate(g: Generator, seed: Seed, from: nat, nbSamples: nat, partitions: nat): (raw: seq<real>)
    requires nbSamples >= 1 && IsUniform(g)
    ensures |raw| == partitions
    ensures forall j :: 0 <= j < partitions ==> 1.0 <= raw[j] <= nbSamples as real && raw[j] == raw[j].Floor as real
  {
    var raw := seq(partitions, j requires 0 <= j < partitions => UniformInt(1, nbSamples, g(seed, from + j)) as real);
    assert forall j :: 0 <= j < partitions ==> 1.0 <= raw[j] <= nbSamples as real && raw[j] == raw[j].Floor as real by {
      forall j | 0 <= j < partitions
        ensures 1.0 <= raw[j] <= nbSamples as real && raw[j] == raw[j].Floor as real
      {
        var u := g(seed, from + j);
        var v := UniformInt(1, nbSamples, u);
        assert 0.0 <= u < 1.0;
        assert raw[j] == v as real;
        assert (v as real).Floor == v;
      }
    }
    raw
  }

  /** A candidate: the raw draws divided by their total. */
  function Candidate(g: Generator, seed: Seed, from: nat, nbSamples: nat, partitions: nat): (c: seq<real>)
    requires nbSamples >= 1 && IsUniform(g)
    ensures |c| == partitions
  {
    var raw := RawCandidate(g, seed, from, nbSamples, partitions);
    if partitions == 0 then [] else SumPositive(raw); Scaled(raw, Sum(raw))
  }

  /** Every candidate with at least one entry is a partition: positive entries summing to 1. */
  lemma {:induction false} CandidateIsPartition(g: Generator, seed: Seed, from: nat, nbSamples: nat, partitions: nat)
    requires nbSamples >= 1 && IsUniform(g) && partitions > 0
    ensures IsPartition(Candidate(g, seed, from, nbSamples, partitions))
  {
    Normalised(RawCandidate(g, seed, from, nbSamples, partitions));
  }

  /** The pool: `population` candidates drawn one after another from position `from`. */
  function Pool(g: Generator, seed: Seed, from: nat, nbSamples: nat, partitions: nat, population: nat)
    : (pool: seq<seq<real>>)
    requires nbSamples >= 1 && IsUniform(g)
    ensures |pool| == population
    ensures forall i :: 0 <= i < population ==> |pool[i]| == partitions
  {
    seq(population, i requires 0 <= i < population => Candidate(g, seed, from + i * partitions, nbSamples, partitions))
  }

  /** Pool member i is the candidate drawn from position `from + i * partitions`. */
  lemma {:induction false} PoolMember(g: Generator, seed: Seed, from: nat, nbSamples: nat, partitions: nat,
                                      population: nat, i: nat)
    requires nbSamples >= 1 && IsUniform(g) && i < population
    ensures Pool(g, seed, from, nbSamples, partitions, population)[i]
         == Candidate(g, seed, from + i * partitions, nbSamples, partitions)
  {
  }

  /** The objective of every pool member. */
  function PoolErrors(fs: seq<ErrorFunction>, pool: seq<seq<real>>): (e: seq<real>)
    ensures |e| == |pool|
  {
    seq(|pool|, i requires 0 <= i < |pool| => Minimax(fs, pool[i]))
  }

  /**
   * The running best over `errs`, started at `bound`: the index taken last by a strict `<`,
   * or -1 when no value is below `bound`.
   */
  function Argmin(errs: seq<real>, bound: real): (best: int)
    ensures -1 <= best < |errs|
  {
    if |errs| == 0 then
      -1
    else
      var b := Argmin(errs[..|errs| - 1], bound);
      var bestValue := if b < 0 then bound else errs[b];
      if errs[|errs| - 1] < bestValue then |errs| - 1 else b
  }

  /**
   * The running best is the earliest minimum below `bound`: none exists exactly when every
   * value reaches `bound`; otherwise it is at most every value and strictly below every
   * earlier one.
   */
  lemma {:induction false} ArgminIsEarliestMinimum(errs: seq<real>, bound: real)
    ensures var best := Argmin(errs, bound);
      (best == -1 <==> forall i :: 0 <= i < |errs| ==> errs[i] >= bound)
      && (best >= 0 ==> errs[best] < bound
                        && (forall i :: 0 <= i < |errs| ==> errs[best] <= errs[i])
                        && (forall i :: 0 <= i < best ==> errs[i] > errs[best]))
  {
    if |errs| > 0 {
      var init := errs[..|errs| - 1];
      ArgminIsEarliestMinimum(init, bound);
      assert forall i :: 0 <= i < |init| ==> init[i] == errs[i];
    }
  }

  /** `probabilityMass` for one pool member: the draws, then the division by their total. */
  method DrawCandidate(stream: RandomStream, nbSamples: nat, partitions: nat) returns (probabilityMass: array<real>)
    requires nbSamples >= 1 && IsUniform(stream.generator)
    modifies stream
    ensures fresh(probabilityMass)
    ensures probabilityMass[..] == Candidate(stream.generator, stream.seed, old(stream.position), nbSamples, partitions)
    ensures stream.position == old(stream.position) + partitions
  {
    ghost var raw := RawCandidate(stream.generator, stream.seed, stream.position, nbSamples, partitions);
    probabilityMass := new real[partitions];
    var totalMass := 0.0;
    for j := 0 to partitions
      invariant stream.position == old(stream.position) + j
      invariant forall t :: 0 <= t < j ==> probabilityMass[t] == raw[t]
      invariant totalMass == Sum(raw[..j])
    {
      var draw := stream.NextInt(1, nbSamples);
      probabilityMass[j] := draw as real;
      SumPrefixStep(raw, j);
      totalMass := totalMass + probabilityMass[j];
    }
    assert raw[..partitions] == raw;
    if partitions > 0 {
      SumPositive(raw);
      Normalise(probabilityMass, totalMass);
    }
  }

  /** The second loop of a candidate: `probabilityMass[j] /= totalMass` for every j. */
  method Normalise(probabilityMass: array<real>, totalMass: real)
    requires totalMass != 0.0
    modifies probabilityMass
    ensures probabilityMass[..] == Scaled(old(probabilityMass[..]), totalMass)
  {
    ghost var scaled := Scaled(probabilityMass[..], totalMass);
    for j := 0 to probabilityMass.Length
      invariant forall t :: 0 <= t < j ==> probabilityMass[t] == scaled[t]
      invariant forall t :: j <= t < probabilityMass.Length ==> probabilityMass[t] == old(probabilityMass[t])
    {
      probabilityMass[j] := probabilityMass[j] / totalMass;
    }
  }

  /** The pool-building loop of `simpleRandomSampling`: `population` candidates, in order. */
  method DrawPool(stream: RandomStream, nbSamples: nat, partitions: nat, population: nat)
    returns (probabilityMassPool: seq<array<real>>)
    requires nbSamples >= 1 && IsUniform(stream.generator)
    modifies stream
    ensures stream.position == old(stream.position) + population * partitions
    ensures |probabilityMassPool| == population
    ensures forall t :: 0 <= t < population ==>
      fresh(probabilityMassPool[t])
      && probabilityMassPool[t][..] == Pool(stream.generator, stream.seed, old(stream.position), nbSamples, partitions, population)[t]
  {
    ghost var from := stream.position;
    probabilityMassPool := [];
    for i := 0 to population
      invariant stream.position == from + i * partitions
      invariant |probabilityMassPool| == i
      invariant forall t :: 0 <= t < i ==>
        fresh(probabilityMassPool[t])
        && probabilityMassPool[t][..] == Pool(stream.generator, stream.seed, from, nbSamples, partitions, population)[t]
    {
      var probabilityMass := DrawCandidate(stream, nbSamples, partitions);
      PoolMember(stream.generator, stream.seed, from, nbSamples, partitions, population, i);
      probabilityMassPool := probabilityMassPool + [probabilityMass];
      assert (i + 1) * partitions == i * partitions + partitions;
    }
  }

  /**
   * The selection loop of `simpleRandomSampling`: the running best against
   * `Double.MAX_VALUE`, replaced only on a strictly smaller objective.
   */
  method SelectBest(fs: seq<ErrorFunction>, probabilityMassPool: seq<array<real>>, ghost pool: seq<seq<real>>)
    returns (bestMass: array?<real>)
    requires |probabilityMassPool| == |pool|
    requires forall t :: 0 <= t < |pool| ==> probabilityMassPool[t][..] == pool[t]
    ensures var best := Argmin(PoolErrors(fs, pool), DoubleMaxValue);
      (bestMass == null <==> best == -1) && (bestMass != null ==> bestMass == probabilityMassPool[best])
  {
    ghost var errs := PoolErrors(fs, pool);
    var minMaxApproxError := DoubleMaxValue;
    bestMass := null;
    ghost var best := -1;
    for t := 0 to |probabilityMassPool|
      invariant best == Argmin(errs[..t], DoubleMaxValue)
      invariant best == -1 ==> bestMass == null && minMaxApproxError == DoubleMaxValue
      invariant best >= 0 ==> bestMass == probabilityMassPool[best] && minMaxApproxError == errs[best]
    {
      assert errs[..t + 1][..t] == errs[..t];
      var maxApproxError := MinimaxError(fs, probabilityMassPool[t]);
      assert maxApproxError == errs[t];
      if maxApproxError < minMaxApproxError {
        bestMass := probabilityMassPool[t];
        minMaxApproxError := maxApproxError;
        best := t;
      }
    }
    assert errs[..|probabilityMassPool|] == errs;
  }

  /**
   * `simpleRandomSampling`: draws a pool of `population` normalised candidates, then keeps the
   * one with the smallest objective, the earliest on ties; `null` when none is below
   * `Double.MAX_VALUE`.
   */
  method SimpleRandomSampling(stream: RandomStream, nbSamples: nat, fs: seq<ErrorFunction>, partitions: nat,
                              population: nat)
    returns (bestMass: array?<real>)
    requires nbSamples >= 1 && IsUniform(stream.generator)
    modifies stream
    ensures stream.position == old(stream.position) + population * partitions
    ensures var pool := Pool(stream.generator, stream.seed, old(stream.position), nbSamples, partitions, population);
      var best := Argmin(PoolErrors(fs, pool), DoubleMaxValue);
      (bestMass == null <==> best == -1)
      && (bestMass != null ==> fresh(bestMass) && bestMass[..] == pool[best])
  {
    ghost var pool := Pool(stream.generator, stream.seed, stream.position, nbSamples, partitions, population);
    var probabilityMassPool := DrawPool(stream, nbSamples, partitions, population);
    bestMass := SelectBest(fs, probabilityMassPool, pool);
  }

  // ----- coordinateDescent -----

  /**
   * `coordinateDescent`: hill climbing started from the best pool member. The source passes
   * the stream on but `hillClimbing` never reads it; `fuel` bounds the passes.
   */
  method CoordinateDescent(stream: RandomStream, nbSamples: nat, fs: seq<ErrorFunction>, partitions: nat,
                           population: nat, fuel: nat)
    returns (bestMass: array?<real>)
    requires nbSamples >= 1 && IsUniform(stream.generator)
    modifies stream
    ensures stream.position == old(stream.position) + population * partitions
    ensures var pool := Pool(stream.generator, stream.seed, old(stream.position), nbSamples, partitions, population);
      var best := Argmin(PoolErrors(fs, pool), DoubleMaxValue);
      (bestMass == null <==> best == -1)
      && (bestMass != null ==> fresh(bestMass) && bestMass[..] == Climb(fs, pool[best], 1.0 / nbSamples as real, fuel))
  {
    var probabilityMass := SimpleRandomSampling(stream, nbSamples, fs, partitions, population);
    if probabilityMass == null {
      bestMass := null;
    } else {
      ghost var converged;
      bestMass, converged := HillClimbing(fs, probabilityMass, nbSamples, partitions, fuel);
    }
  }

  /** Every member of a pool with at least one entry per candidate is a partition. */
  lemma {:induction false} PoolMemberIsPartition(g: Generator, seed: Seed, from: nat, nbSamples: nat, partitions: nat,
                                                 population: nat, i: nat)
    requires nbSamples >= 1 && IsUniform(g) && partitions > 0 && i < population
    ensures IsPartition(Pool(g, seed, from, nbSamples, partitions, population)[i])
  {
    PoolMember(g, seed, from, nbSamples, partitions, population, i);
    CandidateIsPartition(g, seed, from + i * partitions, nbSamples, partitions);
  }

  /**
   * Climbing from the running best of any pool of partitions gives a vector whose masses sum
   * to 1 and whose objective is no larger than that of any pool member.
   */
  lemma {:induction false} ClimbFromBest(fs: seq<ErrorFunction>, pool: seq<seq<real>>, precision: real, fuel: nat)
    requires Argmin(PoolErrors(fs, pool), DoubleMaxValue) >= 0
    requires IsPartition(pool[Argmin(PoolErrors(fs, pool), DoubleMaxValue)])
    ensures var r := Climb(fs, pool[Argmin(PoolErrors(fs, pool), DoubleMaxValue)], precision, fuel);
      Sum(r) == 1.0 && forall i :: 0 <= i < |pool| ==> Minimax(fs, r) <= Minimax(fs, pool[i])
  {
    var errs := PoolErrors(fs, pool);
    var best := Argmin(errs, DoubleMaxValue);
    var r := Climb(fs, pool[best], precision, fuel);
    ArgminIsEarliestMinimum(errs, DoubleMaxValue);
    ClimbConservesMass(fs, pool[best], precision, fuel);
    forall i | 0 <= i < |pool|
      ensures Minimax(fs, r) <= Minimax(fs, pool[i])
    {
      assert errs[i] == Minimax(fs, pool[i]);
    }
  }

  /**
   * What coordinate descent returns, when it returns a vector: its masses still sum to 1, and
   * its objective is no larger than that of any pool member.
   */
  lemma {:induction false} CoordinateDescentResult(g: Generator, seed: Seed, from: nat, nbSamples: nat, fs: seq<ErrorFunction>,
                                partitions: nat, population: nat, fuel: nat)
    requires nbSamples >= 1 && IsUniform(g) && partitions > 0
    requires Argmin(PoolErrors(fs, Pool(g, seed, from, nbSamples, partitions, population)), DoubleMaxValue) >= 0
    ensures var pool := Pool(g, seed, from, nbSamples, partitions, population);
      var r := Climb(fs, pool[Argmin(PoolErrors(fs, pool), DoubleMaxValue)], 1.0 / nbSamples as real, fuel);
      Sum(r) == 1.0 && forall i :: 0 <= i < population ==> Minimax(fs, r) <= Minimax(fs, pool[i])
  {
    var pool := Pool(g, seed, from, nbSamples, partitions, population);
    PoolMemberIsPartition(g, seed, from, nbSamples, partitions, population, Argmin(PoolErrors(fs, pool), DoubleMaxValue));
    ClimbFromBest(fs, pool, 1.0 / nbSamples as real, fuel);
  }
}
