/** 64-bit numbers and counters. */
module Words {
  const TWO_64: nat := 0x1_0000_0000_0000_0000

  type U64 = v: int | 0 <= v < TWO_64

  /** `x++` on an unsigned 64-bit number. */
  function Inc64(x: nat): nat { if x + 1 == TWO_64 then 0 else x + 1 }

  /** What such a counter shows after `n` increments from zero. */
  function Low64(n: nat): nat { if n == 0 then 0 else Inc64(Low64(n - 1)) }

  lemma {:induction false} Low64IsModulo(n: nat)
    ensures Low64(n) == n % TWO_64
  {
    if n > 0 {
      Low64IsModulo(n - 1);
      var w: nat := 0x1_0000_0000_0000_0000;
      assert n % w == if (n - 1) % w + 1 == w then 0 else (n - 1) % w + 1;
    }
  }
}
