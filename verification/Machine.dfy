/** 64-bit integers. */
module Machine {

  const MAX_INT64: int := 0x7FFF_FFFF_FFFF_FFFF
  const MIN_INT64: int := -0x8000_0000_0000_0000

  predicate InInt64(n: int) {
    MIN_INT64 <= n <= MAX_INT64
  }

  type Word64 = n: int | InInt64(n)

  /** The result of 64-bit arithmetic whose exact result is n. */
  function Wrap64(n: int): (r: Word64)
    ensures InInt64(n) <==> r == n
  {
    (n + 0x8000_0000_0000_0000) % 0x1_0000_0000_0000_0000 - 0x8000_0000_0000_0000
  }

  /** Wrapping the sum of two 64-bit integers is exact only for the right summand. */
  lemma WrapAdd(a: Word64, b: Word64, d: Word64)
    ensures Wrap64(a + d) == b + d <==> a == b && InInt64(b + d)
  {
    assert InInt64(a) && InInt64(b) && InInt64(d);
    WrapOnce(a + d);
  }

  lemma WrapOnce(n: int)
    requires 2 * MIN_INT64 <= n <= 2 * MAX_INT64
    ensures Wrap64(n) == if n < MIN_INT64 then n - 2 * MIN_INT64 else if n > MAX_INT64 then n + 2 * MIN_INT64 else n
  {
    var m, big := n + 0x8000_0000_0000_0000, 0x1_0000_0000_0000_0000;
    if n < MIN_INT64 {
      assert m % big == (m + big) % big;
    } else if n > MAX_INT64 {
      assert m % big == (m - big) % big;
    }
  }
}
