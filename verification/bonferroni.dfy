/** `BonferroniThresholdMTP`: with `N` planned queries every test runs at
    the level `alpha / 2^N`, one share for each of the `2^N` outcome
    histories the adaptive procedure could follow. */
module Bonferroni {
  import opened Common
  import opened Thresholds

  /** `2^n`, exactly. */
  function Pow2(n: nat): (r: nat)
    ensures r >= 1
  {
    if n == 0 then 1 else 2 * Pow2(n - 1)
  }

  lemma {:induction false} Pow2Add(a: nat, b: nat)
    ensures Pow2(a + b) == Pow2(a) * Pow2(b)
  {
    if a > 0 {
      Pow2Add(a - 1, b);
    }
  }

  /** The two powers at the edge of numpy's 64-bit integers. */
  lemma Pow2At64()
    ensures Pow2(63) == 0x8000_0000_0000_0000
    ensures Pow2(64) == 0x1_0000_0000_0000_0000
  {
    assert Pow2(8) == 0x100;
    Pow2Add(8, 8);
    assert Pow2(16) == 0x100 * 0x100 == 0x1_0000;
    Pow2Add(16, 16);
    assert Pow2(32) == 0x1_0000 * 0x1_0000 == 0x1_0000_0000;
    Pow2Add(32, 32);
    assert Pow2(64) == 0x1_0000_0000 * 0x1_0000_0000 == 0x1_0000_0000_0000_0000;
  }

  /** Every power below the 63rd fits a signed 64-bit integer. */
  lemma Pow2Below63(n: nat)
    requires n < 63
    ensures Pow2(n) < 0x8000_0000_0000_0000
  {
    Pow2At64();
    Pow2Add(n, 63 - n);
    assert Pow2(63 - n) >= 2 by {
      assert Pow2(63 - n) == 2 * Pow2(62 - n);
    }
  }

  /** Two's-complement wrap-around into numpy's `int64`. */
  function WrapInt64(x: int): (r: int)
    ensures -0x8000_0000_0000_0000 <= r < 0x8000_0000_0000_0000
    ensures (r - x) % 0x1_0000_0000_0000_0000 == 0
    ensures -0x8000_0000_0000_0000 <= x < 0x8000_0000_0000_0000 ==> r == x
  {
    (x + 0x8000_0000_0000_0000) % 0x1_0000_0000_0000_0000 - 0x8000_0000_0000_0000
  }

  /** `np.power(2, n)` as the source computes it: numpy raises two Python
      integers to an integer power in `int64`, which wraps around silently.
      It is exact below `n = 63`. */
  function NumpyPow2(n: nat): (r: int)
    ensures n < 63 ==> r == Pow2(n)
  {
    if n < 63 then Pow2Below63(n); WrapInt64(Pow2(n)) else WrapInt64(Pow2(n))
  }

  /** The wrap-around as written: 63 planned queries give a negative
      correction factor, hence a negative test level, and 64 give a factor
      of 0, a division by zero. */
  lemma NumpyPow2Wraps(alpha: real)
    requires alpha > 0.0
    ensures NumpyPow2(63) == -0x8000_0000_0000_0000
    ensures alpha / NumpyPow2(63) as real < 0.0
    ensures NumpyPow2(64) == 0
  {
    Pow2At64();
  }

  /** The level of every test, `alpha / correction_factor`, with the
      correction factor `2^n` computed exactly. */
  function Level(alpha: real, n: nat): real
  {
    alpha / Pow2(n) as real
  }

  /** The level lies in [0, alpha], halves with every further planned
      query, and the `2^n` histories together spend exactly `alpha`. */
  lemma LevelSplitsAlpha(alpha: real, n: nat)
    requires 0.0 <= alpha
    ensures 0.0 <= Level(alpha, n) <= alpha
    ensures Level(alpha, n + 1) * 2.0 == Level(alpha, n)
    ensures Level(alpha, n) * Pow2(n) as real == alpha
  {
    var p := Pow2(n) as real;
    assert Pow2(n + 1) as real == 2.0 * p;
    assert alpha / p <= alpha by {
      assert alpha <= alpha * p;
    }
  }

  class BonferroniMTP {
    const alpha: real
    var numAdaptQueries: nat
    /** `None` until `SetNumQueries` is called. */
    var correctionFactor: Option<nat>

    /** The correction factor, once set, is `2^N` for the planned number
        `N` of queries. */
    ghost predicate Valid()
      reads this
    {
      correctionFactor.Some? ==> correctionFactor.value == Pow2(numAdaptQueries)
    }

    /** `__init__` (the unused base threshold is omitted). */
    constructor (alpha: real)
      ensures Valid()
      ensures this.alpha == alpha && correctionFactor == None
    {
      this.alpha := alpha;
      numAdaptQueries := 0;
      correctionFactor := None;
    }

    /** `set_num_queries`: the correction factor `2^n`. */
    method SetNumQueries(n: nat)
      modifies this`numAdaptQueries, this`correctionFactor
      ensures Valid()
      ensures numAdaptQueries == n && correctionFactor == Some(Pow2(n))
    {
      numAdaptQueries := n;
      correctionFactor := Some(Pow2(n));
    }

    /** `get_test_compare`, given the mean of the loss differences and its
        standard error: the upper confidence bound at the level
        `alpha / 2^N` decides, and no state changes. Before
        `SetNumQueries` there is no correction factor. */
    method GetTestCompare(num: Numerics, lossMean: real, stdErr: real) returns (r: Result<int>)
      requires Valid()
      ensures r.Err? <==> correctionFactor.None?
      ensures r.Err? ==> r.fault == NotPlanned
      ensures r.Ok? ==> r.value == BonfOutcome(num, lossMean, stdErr, Level(alpha, numAdaptQueries))
                        && (r.value == 1 <==> lossMean + stdErr * num.ppf(1.0 - Level(alpha, numAdaptQueries)) < 0.0)
    {
      if correctionFactor.None? {
        return Err(NotPlanned);
      }
      r := Ok(BonfOutcome(num, lossMean, stdErr, alpha / correctionFactor.value as real));
    }
  }
}
