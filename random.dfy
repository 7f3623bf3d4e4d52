/**
 * The pseudo-random stream the source takes from the SSJ library: an `MRG32k3aL` generator,
 * read through `UniformGen.nextDouble`, `UniformIntGen.nextInt` and `nextDouble`.
 *
 * The generator's own algorithm is foreign code. It enters the model as a value of type
 * `Generator`: the deviate found at each position of the stream that a seed starts. What the
 * model keeps is the stream's one piece of mutable state, its position, and the fact that
 * `resetStartStream` puts it back to the start.
 */
module Random {

  type Seed = seq<int>

  /** `g(seed, k)`: the k-th uniform deviate of the stream started from `seed`. */
  type Generator = (Seed, nat) -> real

  /** Every deviate lies in [0, 1), as `nextDouble` promises. */
  ghost predicate IsUniform(g: Generator)
  {
    forall s, k :: 0.0 <= g(s, k) < 1.0
  }

  /** The `count` deviates of the stream of `seed` from position `from` on. */
  function Draws(g: Generator, seed: Seed, from: nat, count: nat): seq<real>
  {
    seq(count, k requires 0 <= k < count => g(seed, from + k))
  }

  /**
   * `UniformIntGen.nextInt(stream, a, b)`: one deviate `u` scaled to an integer of [a, b] as
   * `a + floor(u * (b - a + 1))`.
   */
  function UniformInt(a: int, b: int, u: real): (r: int)
    requires a <= b
    ensures 0.0 <= u < 1.0 ==> a <= r <= b
  {
    var width := (b - a + 1) as real;
    assert 0.0 <= u < 1.0 ==> 0.0 <= u * width < width;
    a + (u * width).Floor
  }

  /** An `MRG32k3aL` stream after `setSeed`: a fixed sequence of deviates and a read position. */
  class RandomStream {
    const generator: Generator
    const seed: Seed
    var position: nat

    /** `new MRG32k3aL()` followed by `setSeed(seed)`: the stream starts at position 0. */
    constructor (generator: Generator, seed: Seed)
      ensures this.generator == generator && this.seed == seed
      ensures position == 0
    {
      this.generator := generator;
      this.seed := seed;
      position := 0;
    }

    /** `resetStartStream()`: the next deviate read is again the first of the seed's stream. */
    method ResetStartStream()
      modifies this
      ensures position == 0
    {
      position := 0;
    }

    /** `nextDouble()` (also `UniformGen.nextDouble(stream, 0, 1)`): reads one deviate. */
    method NextDouble() returns (u: real)
      modifies this
      ensures u == generator(seed, old(position))
      ensures position == old(position) + 1
    {
      u := generator(seed, position);
      position := position + 1;
    }

    /** `UniformIntGen.nextInt(stream, a, b)`: reads one deviate and scales it to [a, b]. */
    method NextInt(a: int, b: int) returns (r: int)
      requires a <= b
      modifies this
      ensures r == UniformInt(a, b, generator(seed, old(position)))
      ensures position == old(position) + 1
    {
      var u := NextDouble();
      r := UniformInt(a, b, u);
    }
  }
}
