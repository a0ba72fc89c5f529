/** Counters stored as JSON numbers come back through a float64. */
module Float64 {
  import opened Machine

  const EXACT_LIMIT: nat := 0x20_0000_0000_0000 // 2^53

  /** Distance between neighbouring float64 integers at magnitude a. */
  function Ulp(a: nat): (u: nat)
    ensures u >= 1
    ensures a < EXACT_LIMIT ==> u == 1
  {
    if a < EXACT_LIMIT then 1 else 2 * Ulp(a / 2)
  }

  /** a rounded to a multiple of u, ties to the even multiple. */
  function RoundTo(a: nat, u: nat): nat
    requires u >= 1
  {
    var q, r := a / u, a % u;
    if 2 * r < u || (2 * r == u && q % 2 == 0) then q * u else (q + 1) * u
  }

  /** The float64 integer a stored decimal integer decodes to. */
  function Nearest(n: int): int {
    if n < 0 then -(RoundTo(-n, Ulp(-n)) as int) else RoundTo(n, Ulp(n))
  }

  /** What a float64 too large for 64 bits converts to; the language leaves this to the machine. */
  const TOO_LARGE: Word64

  /** The 64-bit integer a stored counter comes back as. */
  function ReadBack(n: Word64): Word64 {
    if InInt64(Nearest(n)) then Nearest(n) else TOO_LARGE
  }

  function Abs(n: int): nat {
    if n < 0 then -n else n
  }

  /** n is a float64 integer. */
  predicate Exact(n: int) {
    Abs(n) % Ulp(Abs(n)) == 0
  }

  lemma RoundExact(a: nat, u: nat)
    requires u >= 1
    ensures RoundTo(a, u) == a <==> a % u == 0
  {
    assert a == (a / u) * u + a % u;
    if 2 * (a % u) < u || (2 * (a % u) == u && a / u % 2 == 0) {
    } else {
      assert (a / u + 1) * u == (a / u) * u + u;
    }
  }

  /** A counter comes back: as a float64 integer, or because the machine happens to make it of one too large. */
  predicate Survives(n: Word64) {
    Exact(n) || (!InInt64(Nearest(n)) && TOO_LARGE == n)
  }

  /** A counter survives the round trip exactly under this condition. */
  lemma ReadBackExact(n: Word64)
    ensures ReadBack(n) == n <==> Survives(n)
  {
    RoundExact(Abs(n), Ulp(Abs(n)));
  }

  lemma SmallIsExact(n: int)
    requires Abs(n) <= EXACT_LIMIT
    ensures Exact(n)
  {
    if Abs(n) == EXACT_LIMIT {
      assert Ulp(EXACT_LIMIT) == 2 * Ulp(EXACT_LIMIT / 2) == 2;
    }
  }

  /** Rounding goes to the nearest multiple, of two equally near ones to the even. */
  lemma RoundIsNearest(a: nat, u: nat)
    requires u >= 1
    ensures var r := RoundTo(a, u);
      && (exists q: nat :: r == q * u && (2 * Abs(r - a) == u ==> q % 2 == 0))
      && 2 * Abs(r - a) <= u
  {
    var q, rest := a / u, a % u;
    assert a == q * u + rest;
    if 2 * rest < u || (2 * rest == u && q % 2 == 0) {
      assert RoundTo(a, u) == q * u;
    } else {
      assert (q + 1) * u == q * u + u;
      assert RoundTo(a, u) == (q + 1) * u;
    }
  }

  /** A large magnitude is between 2^52 and 2^53 times the distance of its neighbours. */
  lemma {:induction false} UlpSpans(a: nat)
    requires a >= EXACT_LIMIT
    ensures 0x10_0000_0000_0000 * Ulp(a) <= a < 0x20_0000_0000_0000 * Ulp(a)
  {
    if a / 2 >= EXACT_LIMIT {
      UlpSpans(a / 2);
    }
  }
}
