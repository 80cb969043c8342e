/**
 * The game score: a single unsigned 32-bit accumulator.
 */
module Score {

  const UINT32_MODULUS: nat := 0x1_0000_0000
  const UINT16_MODULUS: nat := 0x1_0000

  /** Reducing the running total before adding changes nothing mod 2^32. */
  lemma AddAfterWrap(total: nat, v: nat)
    ensures (total % UINT32_MODULUS + v) % UINT32_MODULUS == (total + v) % UINT32_MODULUS
  {
  }

  class ScoreKeeper {
    /** `score`, a uint32_t */
    var score: nat
    /** Everything added since the last init_score, without wrap-around. */
    ghost var total: nat

    /** The stored score is the true total cut to 32 bits. */
    ghost predicate Valid()
      reads this
    {
      score == total % UINT32_MODULUS
    }

    /** The global starts out zero, as a static uint32_t does. */
    constructor ()
      ensures Valid() && score == 0 && total == 0
    {
      score, total := 0, 0;
    }

    /** init_score */
    method InitScore()
      modifies this
      ensures Valid() && score == 0 && total == 0
    {
      score, total := 0, 0;
    }

    /** add_to_score: the uint16_t argument is added with uint32_t wrap-around. */
    method AddToScore(value: nat)
      requires Valid()
      requires value < UINT16_MODULUS
      modifies this
      ensures Valid()
      ensures total == old(total) + value
      ensures score == (old(score) + value) % UINT32_MODULUS
    {
      AddAfterWrap(total, value);
      score := (score + value) % UINT32_MODULUS;
      total := total + value;
    }

    /** get_score */
    method GetScore() returns (s: nat)
      requires Valid()
      ensures s == score && s < UINT32_MODULUS
    {
      s := score;
    }
  }
}
