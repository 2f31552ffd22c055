/**
 * The random engine (std::mt19937 with std::uniform_int_distribution) as a
 * fixed source of numbers read one after another: draw n of a uniform
 * integer in [lo, hi] is lo + source(n) mod (hi - lo + 1).
 */
module Random {

  /** The value draw number `n` of the source yields for the closed range [lo, hi]. */
  function Draw(source: nat -> nat, n: nat, lo: int, hi: int): (v: int)
    requires lo <= hi
    ensures lo <= v <= hi
  {
    lo + source(n) % (hi - lo + 1)
  }

  /** A random engine: its fixed source and how many numbers have been drawn from it. */
  class Rng {
    const source: nat -> nat
    var draws: nat

    constructor(source: nat -> nat)
      ensures this.source == source && draws == 0
    {
      this.source := source;
      draws := 0;
    }

    /** std::uniform_int_distribution<int>(lo, hi)(generator). */
    method UniformInt(lo: int, hi: int) returns (v: int)
      requires lo <= hi
      modifies this
      ensures v == Draw(source, old(draws), lo, hi) && lo <= v <= hi
      ensures draws == old(draws) + 1
    {
      v := Draw(source, draws, lo, hi);
      draws := draws + 1;
    }
  }
}
