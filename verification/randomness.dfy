/**
 * Python's `random` module, with its draws injected. The `i`-th call to the
 * module returns `uniform(i)` if it is `random.random()` and an integer chosen
 * from `integers(i)` if it is `random.randint(lo, hi)`. Nothing is stated
 * about the distributions; only the ranges Python guarantees are kept.
 */
module Randomness {

  /** A value of `random.random()`: a real in [0, 1). */
  type Unit = r: real | 0.0 <= r < 1.0

  datatype Oracle = Oracle(uniform: nat -> Unit, integers: nat -> int)

  /** `random.randint(lo, hi)` answered by the `i`-th draw. */
  function IntAt(o: Oracle, i: nat, lo: int, hi: int): (r: int)
    requires lo <= hi
    ensures lo <= r <= hi
  {
    lo + o.integers(i) % (hi - lo + 1)
  }

  /** The state of the process-wide generator: the draws and how many were used. */
  class RandomSource {
    const oracle: Oracle
    var cursor: nat

    constructor (oracle: Oracle)
      ensures this.oracle == oracle && cursor == 0
    {
      this.oracle := oracle;
      cursor := 0;
    }

    /** `random.random()` */
    method Random() returns (u: Unit)
      modifies this
      ensures u == oracle.uniform(old(cursor)) && cursor == old(cursor) + 1
    {
      u := oracle.uniform(cursor);
      cursor := cursor + 1;
    }

    /** `random.randint(lo, hi)` */
    method RandInt(lo: int, hi: int) returns (r: int)
      requires lo <= hi
      modifies this
      ensures r == IntAt(oracle, old(cursor), lo, hi) && cursor == old(cursor) + 1
      ensures lo <= r <= hi
    {
      r := IntAt(oracle, cursor, lo, hi);
      cursor := cursor + 1;
    }
  }
}
