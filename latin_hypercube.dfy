/**
 * `LHSampling`: Latin hypercube sampling. Each of `dimNum` rows is a fresh random permutation
 * of the strata 1 .. pointNum (a Fisher-Yates shuffle), and each point is drawn uniformly inside
 * its stratum, so every row has exactly one point in each interval [k/n, (k+1)/n).
 */
module LatinHypercube {
  import opened RealSeqs
  import opened Random

  /**
   * `getUniform(a, b)` on the deviate `u`: an affine map of `u` onto
   * [min(a, b) - 1/2, max(a, b) + 1/2], rounded, then clamped into [min(a, b), max(a, b)].
   */
  function ClampedUniform(a: int, b: int, u: real): (r: int)
    ensures (if a <= b then a else b) <= r <= (if a <= b then b else a)
    ensures a == b ==> r == a
  {
    var lo := if a <= b then a else b;
    var hi := if a <= b then b else a;
    var scaled := (1.0 - u) * (lo as real - 0.5) + u * (hi as real + 0.5);
    var rounded := Round(scaled);
    var atLeastLo := if rounded >= lo then rounded else lo;
    if atLeastLo <= hi then atLeastLo else hi
  }

  /**
   * On a deviate of [0, 1) the clamps never bind: `getUniform` is then the plain uniform
   * integer `lo + floor(u * (hi - lo + 1))`, each value of [lo, hi] taking a slice of width
   * 1 / (hi - lo + 1) of the deviates.
   */
  lemma ClampedUniformIsUniformInt(a: int, b: int, u: real)
    requires 0.0 <= u < 1.0
    ensures ClampedUniform(a, b, u) == UniformInt(if a <= b then a else b, if a <= b then b else a, u)
  {
    var lo := if a <= b then a else b;
    var hi := if a <= b then b else a;
    var width := (hi - lo + 1) as real;
    var scaled := (1.0 - u) * (lo as real - 0.5) + u * (hi as real + 0.5);
    assert scaled + 0.5 == lo as real + u * width;
    var f := (u * width).Floor;
    assert (lo as real + u * width).Floor == lo + f;
    assert lo <= UniformInt(lo, hi, u) <= hi;
  }

  /** `[1, 2, .., n]`: `perm` after its first loop. */
  function Identity(n: nat): (p: seq<int>)
    ensures |p| == n && forall k :: 0 <= k < n ==> p[k] == k + 1
  {
    seq(n, k => k + 1)
  }

  /** Step i of the shuffle (1-based): positions i - 1 and `j - 1` trade places. */
  function SwapStep(perm: seq<int>, i: nat, j: nat): (r: seq<int>)
    requires 1 <= i <= j <= |perm|
  {
    perm[i - 1 := perm[j - 1]][j - 1 := perm[i - 1]]
  }

  /** The step trades two entries and leaves the others alone. */
  lemma SwapStepPermutes(perm: seq<int>, i: nat, j: nat)
    requires 1 <= i <= j <= |perm|
    ensures |SwapStep(perm, i, j)| == |perm|
    ensures multiset(SwapStep(perm, i, j)) == multiset(perm)
    ensures SwapStep(perm, i, j)[i - 1] == perm[j - 1] && SwapStep(perm, i, j)[j - 1] == perm[i - 1]
    ensures forall k :: 0 <= k < |perm| && k != i - 1 && k != j - 1 ==> SwapStep(perm, i, j)[k] == perm[k]
  {
    SwapStepMultiset(perm, i - 1, j - 1);
  }

  /** Writing two entries with each other's values keeps the multiset. */
  lemma SwapStepMultiset(perm: seq<int>, a: nat, b: nat)
    requires a <= b < |perm|
    ensures multiset(perm[a := perm[b]][b := perm[a]]) == multiset(perm)
  {
    var p1 := perm[a := perm[b]];
    assert multiset(p1) == multiset(perm) - multiset{perm[a]} + multiset{perm[b]};
    assert p1[b] == perm[b];
  }

  /** Each step k (1-based) of a shuffle of n swaps with a partner in [k, n]. */
  predicate ValidPartners(n: nat, js: seq<int>)
  {
    |js| <= n && forall k :: 0 <= k < |js| ==> k + 1 <= js[k] <= n
  }

  /** The swap partners `perm_random` draws from the deviates `us`: `getUniform(k, n)` at step k. */
  function Partners(n: nat, us: seq<real>): (js: seq<int>)
    requires |us| <= n
    ensures |js| == |us| && ValidPartners(n, js)
  {
    seq(|us|, k requires 0 <= k < |us| => ClampedUniform(k + 1, n, us[k]))
  }

  /**
   * `start` after the first i steps of the second loop of `perm_random`, step k swapping
   * position k - 1 with position `js[k - 1] - 1`.
   */
  function ShuffleSteps(start: seq<int>, js: seq<int>, i: nat): (p: seq<int>)
    requires ValidPartners(|start|, js) && i <= |js|
    ensures |p| == |start|
  {
    if i == 0 then start
    else SwapStep(ShuffleSteps(start, js, i - 1), i, js[i - 1])
  }

  /** The permutation `perm_random` returns for the deviates `us`. */
  function Shuffle(n: nat, us: seq<real>): (p: seq<int>)
    requires |us| == n
    ensures |p| == n
  {
    ShuffleSteps(Identity(n), Partners(n, us), n)
  }

  /** `a` is a rearrangement of `b`. */
  predicate IsPermutationOf(a: seq<int>, b: seq<int>)
  {
    multiset(a) == multiset(b)
  }

  /** Swapping never changes the multiset: any number of steps permutes the start. */
  lemma {:induction false} ShuffleStepsPermute(start: seq<int>, js: seq<int>, i: nat)
    requires ValidPartners(|start|, js) && i <= |js|
    ensures IsPermutationOf(ShuffleSteps(start, js, i), start)
  {
    if i > 0 {
      ShuffleStepsPermute(start, js, i - 1);
      StepPermutes(start, js, i);
    }
  }

  /** One more step keeps a permutation of the start a permutation of the start. */
  lemma StepPermutes(start: seq<int>, js: seq<int>, i: nat)
    requires ValidPartners(|start|, js) && 0 < i <= |js|
    requires IsPermutationOf(ShuffleSteps(start, js, i - 1), start)
    ensures IsPermutationOf(ShuffleSteps(start, js, i), start)
  {
    SwapStepMultiset(ShuffleSteps(start, js, i - 1), i - 1, js[i - 1] - 1);
  }

  /**
   * Step k only writes positions at or after k - 1: once step i is done, positions
   * 0 .. i - 1 keep their values through every later step.
   */
  lemma {:induction false} ShuffleFixesPrefix(start: seq<int>, js: seq<int>, i: nat, k: nat)
    requires ValidPartners(|start|, js) && i <= k <= |js|
    ensures ShuffleSteps(start, js, k)[..i] == ShuffleSteps(start, js, i)[..i]
    decreases k - i
  {
    if i < k {
      ShuffleFixesPrefix(start, js, i, k - 1);
      var before := ShuffleSteps(start, js, k - 1);
      SwapStepPermutes(before, k, js[k - 1]);
      assert ShuffleSteps(start, js, k)[..i] == before[..i];
    }
  }

  /** A permutation of 1 .. n holds each of 1 .. n exactly once. */
  lemma PermutationOfIdentity(p: seq<int>, n: nat)
    requires multiset(p) == multiset(Identity(n))
    ensures |p| == n
    ensures forall k :: 0 <= k < |p| ==> 1 <= p[k] <= n
    ensures forall v :: 1 <= v <= n ==> v in p
    ensures forall k, k' :: 0 <= k < k' < |p| ==> p[k] != p[k']
  {
    assert |p| == |multiset(p)| == |multiset(Identity(n))| == n;
    forall k | 0 <= k < |p|
      ensures 1 <= p[k] <= n
    {
      assert p[k] in multiset(p);
      assert p[k] in Identity(n);
    }
    forall v | 1 <= v <= n
      ensures v in p
    {
      assert Identity(n)[v - 1] == v;
      assert v in multiset(Identity(n));
    }
    forall k, k' | 0 <= k < k' < |p|
      ensures p[k] != p[k']
    {
      if p[k] == p[k'] {
        IdentityCountsOnce(n, p[k]);
        TwiceCounted(p, k, k');
        assert false;
      }
    }
  }

  /** Each value occurs at most once in 1 .. n. */
  lemma {:induction false} IdentityCountsOnce(n: nat, v: int)
    ensures multiset(Identity(n))[v] <= 1
  {
    if n > 0 {
      IdentityCountsOnce(n - 1, v);
      assert Identity(n) == Identity(n - 1) + [n];
      if v == n {
        assert v !in Identity(n - 1);
      }
    }
  }

  /** A value found at two positions is counted at least twice. */
  lemma TwiceCounted(p: seq<int>, k: nat, k': nat)
    requires k < k' < |p| && p[k] == p[k']
    ensures multiset(p)[p[k]] >= 2
  {
    assert p == p[..k] + [p[k]] + p[k + 1..k'] + [p[k']] + p[k' + 1..];
  }

  /** The shuffle `perm_random` returns is a permutation of 1 .. n. */
  lemma ShuffleIsPermutation(n: nat, us: seq<real>)
    requires |us| == n
    ensures multiset(Shuffle(n, us)) == multiset(Identity(n))
    ensures forall k :: 0 <= k < n ==> 1 <= Shuffle(n, us)[k] <= n
    ensures forall k, k' :: 0 <= k < k' < n ==> Shuffle(n, us)[k] != Shuffle(n, us)[k']
    ensures forall v :: 1 <= v <= n ==> v in Shuffle(n, us)
  {
    ShuffleStepsPermute(Identity(n), Partners(n, us), n);
    PermutationOfIdentity(Shuffle(n, us), n);
  }

  /** `getUniform(a, b, randomGenerator)`: one deviate of the stream, mapped into [min, max]. */
  method GetUniform(a: int, b: int, randomGenerator: RandomStream) returns (r: int)
    modifies randomGenerator
    ensures r == ClampedUniform(a, b, randomGenerator.generator(randomGenerator.seed, old(randomGenerator.position)))
    ensures randomGenerator.position == old(randomGenerator.position) + 1
  {
    var randDbl := randomGenerator.NextDouble();
    r := ClampedUniform(a, b, randDbl);
  }

  /**
   * `perm_random(pointNum, randomGenerator)`: fills `perm` with 1 .. n, then for i = 1 .. n
   * swaps position i - 1 with a position drawn from [i - 1, n - 1]; reads n deviates.
   */
  method PermRandom(pointNum: nat, randomGenerator: RandomStream) returns (perm: array<int>)
    modifies randomGenerator
    ensures fresh(perm)
    ensures perm[..] == Shuffle(pointNum, Draws(randomGenerator.generator, randomGenerator.seed,
                                                old(randomGenerator.position), pointNum))
    ensures randomGenerator.position == old(randomGenerator.position) + pointNum
  {
    ghost var us := Draws(randomGenerator.generator, randomGenerator.seed, randomGenerator.position, pointNum);
    ghost var js := Partners(pointNum, us);
    ghost var start := randomGenerator.position;
    perm := new int[pointNum];
    for i := 0 to pointNum
      modifies perm
      invariant perm[..i] == Identity(pointNum)[..i]
    {
      perm[i] := i + 1;
    }
    assert perm[..] == Identity(pointNum);
    for i := 1 to pointNum + 1
      invariant perm[..] == ShuffleSteps(Identity(pointNum), js, i - 1)
      invariant randomGenerator.position == start + (i - 1)
    {
      var j := GetUniform(i, pointNum, randomGenerator);
      assert j == js[i - 1];
      SwapEntries(perm, i, j);
    }
  }

  /** The body of the second loop of `perm_random`: `perm[i - 1]` and `perm[j - 1]` trade places. */
  method SwapEntries(perm: array<int>, i: nat, j: nat)
    requires 1 <= i <= j <= perm.Length
    modifies perm
    ensures perm[..] == SwapStep(old(perm[..]), i, j)
  {
    var swap := perm[i - 1];
    perm[i - 1] := perm[j - 1];
    perm[j - 1] := swap;
  }

  /** Point j of one row: stratum `perm[j] - 1` shifted by the deviate `u` and scaled by 1/n. */
  function LatinPoint(stratum: int, u: real, n: nat): (x: real)
    requires n > 0
    ensures x * n as real == (stratum - 1) as real + u
  {
    ((stratum - 1) as real + u) / n as real
  }

  /** The i-th row of `latin_random`: it reads 2n deviates from `from + 2ni` on, n for the shuffle then one per point. */
  function LatinRow(g: Generator, seed: Seed, from: nat, n: nat, i: nat): (row: seq<real>)
    ensures |row| == n
  {
    var rowStart := from + 2 * n * i;
    Place(Shuffle(n, Draws(g, seed, rowStart, n)), Draws(g, seed, rowStart + n, n), n)
  }

  /** Point j placed in stratum `perm[j] - 1` at offset `offsets[j]`. */
  function Place(perm: seq<int>, offsets: seq<real>, n: nat): (row: seq<real>)
    requires |perm| == |offsets| == n
    ensures |row| == n
  {
    seq(n, j requires 0 <= j < n => LatinPoint(perm[j], offsets[j], n))
  }

  /**
   * Points placed on a permutation of 1 .. n with offsets in [0, 1) lie in [0, 1) and hold
   * exactly one point in each of the n strata.
   */
  lemma PlaceStratified(perm: seq<int>, offsets: seq<real>, n: nat)
    requires |perm| == |offsets| == n > 0
    requires multiset(perm) == multiset(Identity(n))
    requires forall j :: 0 <= j < n ==> 0.0 <= offsets[j] < 1.0
    ensures forall j :: 0 <= j < n ==> 0.0 <= Place(perm, offsets, n)[j] < 1.0
    ensures forall k :: 0 <= k < n ==> k in Strata(Place(perm, offsets, n), n)
    ensures forall j, j' :: 0 <= j < j' < n ==> Strata(Place(perm, offsets, n), n)[j] != Strata(Place(perm, offsets, n), n)[j']
  {
    var row := Place(perm, offsets, n);
    var strata := Strata(row, n);
    PermutationOfIdentity(perm, n);
    forall j | 0 <= j < n
      ensures strata[j] == perm[j] - 1 && 0.0 <= row[j] < 1.0
    {
      LatinPointInStratum(perm[j], offsets[j], n);
    }
    PermutedStrata(strata, perm, n);
  }

  /** The stratum of x among n: the k with x in [k/n, (k+1)/n). */
  function Stratum(x: real, n: nat): (k: int)
    requires n > 0
    ensures k as real / n as real <= x < (k + 1) as real / n as real
  {
    var k := (x * n as real).Floor;
    DivideMonotone(k as real, x * n as real, n as real);
    DivideLess(x * n as real, (k + 1) as real, n as real);
    assert x * n as real / n as real == x;
    k
  }

  /** A point built on stratum p with a deviate of [0, 1) lies in stratum p - 1, hence in [0, 1) when 1 <= p <= n. */
  lemma LatinPointInStratum(p: int, u: real, n: nat)
    requires n > 0 && 0.0 <= u < 1.0
    ensures Stratum(LatinPoint(p, u, n), n) == p - 1
    ensures 1 <= p <= n ==> 0.0 <= LatinPoint(p, u, n) < 1.0
  {
    var x := LatinPoint(p, u, n);
    assert x * n as real == (p - 1) as real + u;
    if 1 <= p <= n {
      DivideMonotone(0.0, (p - 1) as real + u, n as real);
      DivideLess((p - 1) as real + u, n as real, n as real);
    }
  }

  /** Strict order survives division by a positive real. */
  lemma DivideLess(a: real, b: real, n: real)
    requires n > 0.0 && a < b
    ensures a / n < b / n
  {
    assert b / n - a / n == (b - a) / n;
  }

  /** The strata of the points of a row, in order. */
  function Strata(row: seq<real>, n: nat): (strata: seq<int>)
    requires n > 0
    ensures |strata| == |row|
  {
    seq(|row|, j requires 0 <= j < |row| => Stratum(row[j], n))
  }

  /**
   * Strata taken from a permutation of 1 .. n, one below each entry: every stratum
   * 0 .. n - 1 is hit, and none twice.
   */
  lemma PermutedStrata(strata: seq<int>, perm: seq<int>, n: nat)
    requires |strata| == |perm| && forall j :: 0 <= j < |perm| ==> strata[j] == perm[j] - 1
    requires multiset(perm) == multiset(Identity(n))
    ensures |strata| == n
    ensures forall j :: 0 <= j < n ==> 0 <= strata[j] < n
    ensures forall k :: 0 <= k < n ==> k in strata
    ensures forall j, j' :: 0 <= j < j' < n ==> strata[j] != strata[j']
  {
    PermutationOfIdentity(perm, n);
    forall k | 0 <= k < n
      ensures k in strata
    {
      assert k + 1 in perm;
      var j :| 0 <= j < n && perm[j] == k + 1;
      assert strata[j] == k;
    }
  }

  /**
   * With deviates in [0, 1), every row of `latin_random` lies in [0, 1) and holds exactly one
   * point in each of the n strata.
   */
  lemma LatinRowStratified(g: Generator, seed: Seed, from: nat, n: nat, i: nat)
    requires IsUniform(g) && n > 0
    ensures forall j :: 0 <= j < n ==> 0.0 <= LatinRow(g, seed, from, n, i)[j] < 1.0
    ensures forall k :: 0 <= k < n ==> k in Strata(LatinRow(g, seed, from, n, i), n)
    ensures forall j, j' :: 0 <= j < j' < n ==>
      Strata(LatinRow(g, seed, from, n, i), n)[j] != Strata(LatinRow(g, seed, from, n, i), n)[j']
  {
    var rowStart := from + 2 * n * i;
    var us := Draws(g, seed, rowStart, n);
    ShuffleIsPermutation(n, us);
    PlaceStratified(Shuffle(n, us), Draws(g, seed, rowStart + n, n), n);
  }

  /**
   * `latin_random(dimNum, pointNum, randomGenerator)`: row by row, a fresh permutation of the
   * strata, then one deviate per point placed inside its stratum.
   */
  method LatinRandom(dimNum: nat, pointNum: nat, randomGenerator: RandomStream) returns (x: array2<real>)
    modifies randomGenerator
    ensures fresh(x) && x.Length0 == dimNum && x.Length1 == pointNum
    ensures forall i, j :: 0 <= i < dimNum && 0 <= j < pointNum ==>
      x[i, j] == LatinRow(randomGenerator.generator, randomGenerator.seed, old(randomGenerator.position), pointNum, i)[j]
    ensures randomGenerator.position == old(randomGenerator.position) + 2 * pointNum * dimNum
  {
    ghost var start := randomGenerator.position;
    x := new real[dimNum, pointNum];
    for i := 0 to dimNum
      invariant randomGenerator.position == start + 2 * pointNum * i
      invariant forall r, c :: 0 <= r < i && 0 <= c < pointNum ==>
        x[r, c] == LatinRow(randomGenerator.generator, randomGenerator.seed, start, pointNum, r)[c]
    {
      var perm := PermRandom(pointNum, randomGenerator);
      LatinRowFill(x, perm, randomGenerator, start, i);
    }
  }

  /** The inner loop of `latin_random`: row i, one deviate per point. */
  method LatinRowFill(x: array2<real>, perm: array<int>, randomGenerator: RandomStream, ghost start: nat, i: nat)
    requires i < x.Length0 && perm.Length == x.Length1
    requires randomGenerator.position == start + 2 * x.Length1 * i + x.Length1
    requires perm[..] == Shuffle(x.Length1, Draws(randomGenerator.generator, randomGenerator.seed,
                                                  start + 2 * x.Length1 * i, x.Length1))
    modifies x, randomGenerator
    ensures randomGenerator.position == start + 2 * x.Length1 * (i + 1)
    ensures forall c :: 0 <= c < x.Length1 ==>
      x[i, c] == LatinRow(randomGenerator.generator, randomGenerator.seed, start, x.Length1, i)[c]
    ensures forall r, c :: 0 <= r < x.Length0 && 0 <= c < x.Length1 && r != i ==> x[r, c] == old(x[r, c])
  {
    var n := x.Length1;
    ghost var row := LatinRow(randomGenerator.generator, randomGenerator.seed, start, n, i);
    for j := 0 to n
      invariant randomGenerator.position == start + 2 * n * i + n + j
      invariant forall c :: 0 <= c < j ==> x[i, c] == row[c]
      invariant forall r, c :: 0 <= r < x.Length0 && 0 <= c < n && r != i ==> x[r, c] == old(x[r, c])
    {
      var u := randomGenerator.NextDouble();
      assert row[j] == LatinPoint(perm[j], u, n) by {
        assert Draws(randomGenerator.generator, randomGenerator.seed, start + 2 * n * i + n, n)[j] == u;
      }
      x[i, j] := ((perm[j] - 1) as real + u) / n as real;
    }
  }
}
