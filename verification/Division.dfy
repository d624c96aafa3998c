/** The 64-bit division the compiler calls on a 32-bit machine: shift the divisor up, then subtract it
    on the way down. Words are numbers below 2^64, and shifts lose what leaves the word. */
module Division {

  import opened Powers

  const WORD: nat := 0x1_0000_0000_0000_0000
  const SIGN: nat := 0x8000_0000_0000_0000

  type U64 = x: int | 0 <= x < 0x1_0000_0000_0000_0000

  datatype Result = Quotient(quot: U64, rem: U64) | Trap

  function Shl1(x: U64): U64 {
    (2 * x) % WORD
  }

  function Shr1(x: U64): U64 {
    x / 2
  }

  lemma TimesPow2(d: nat, n: nat)
    requires d >= 1
    ensures d * Pow2(n) >= Pow2(n) && d * Pow2(n + 1) == 2 * (d * Pow2(n))
  {
  }

  lemma Pow2At63()
    ensures Pow2(63) == SIGN
  {
    assert Pow2(10) == 0x400;
    assert Pow2(20) == 0x10_0000;
    assert Pow2(30) == 0x4000_0000;
    assert Pow2(40) == 0x100_0000_0000;
    assert Pow2(50) == 0x4_0000_0000_0000;
    assert Pow2(60) == 0x1000_0000_0000_0000;
  }

  /** Divides; by zero it traps. */
  method DivMod(num0: U64, den0: U64) returns (r: Result)
    ensures den0 == 0 <==> r.Trap?
    ensures r.Quotient? ==> num0 == r.quot * den0 + r.rem && r.rem < den0
  {
    if den0 == 0 {
      return Trap;
    }
    var den: U64, qbit: U64 := den0, 1;
    ghost var k: nat := 0;
    while den < SIGN
      invariant den == den0 * Pow2(k) && qbit == Pow2(k) && k <= 63
      decreases WORD - den
    {
      Doubles(den0, den, qbit, k);
      den := Shl1(den);
      qbit := Shl1(qbit);
      k := k + 1;
    }
    var num: U64, quot: U64 := num0, 0;
    ghost var steps: int := k + 1;
    assert num < 2 * den;
    while qbit != 0
      invariant -1 < steps <= 64
      invariant steps > 0 ==> qbit == Pow2(steps - 1) && den == den0 * Pow2(steps - 1) && num < 2 * den
      invariant steps == 0 ==> qbit == 0 && num < den0
      invariant num0 == quot * den0 + num
      decreases steps
    {
      assert steps > 0;
      if den <= num {
        Takes(num0, den0, quot, num, den, qbit);
        num := num - den;
        quot := quot + qbit;
      }
      Halves(den0, den, qbit, steps - 1);
      den := Shr1(den);
      qbit := Shr1(qbit);
      steps := steps - 1;
    }
    return Quotient(quot, num);
  }

  /** No bit leaves the word on the way up. */
  lemma Doubles(den0: U64, den: U64, qbit: U64, k: nat)
    requires den0 > 0 && den == den0 * Pow2(k) && qbit == Pow2(k) && den < SIGN
    ensures Shl1(den) == den0 * Pow2(k + 1) && Shl1(qbit) == Pow2(k + 1) && Shl1(den) > den
    ensures k + 1 <= 63
  {
    TimesPow2(den0, k);
    if k >= 63 {
      Pow2At63();
      Pow2Grows(63, k);
    }
  }

  /** Every bit of the way up is undone, until the quotient bit itself is shifted out. */
  lemma Halves(den0: U64, den: U64, qbit: U64, k: nat)
    requires den0 > 0 && den == den0 * Pow2(k) && qbit == Pow2(k)
    ensures k > 0 ==> Shr1(den) == den0 * Pow2(k - 1) && Shr1(qbit) == Pow2(k - 1) && 2 * Shr1(den) == den
    ensures k == 0 ==> Shr1(qbit) == 0 && den == den0
  {
    if k > 0 {
      TimesPow2(den0, k - 1);
    } else {
      assert Pow2(0) == 1;
    }
  }

  /** Moving one multiple of the divisor from the remainder to the quotient. */
  lemma Takes(num0: U64, den0: U64, quot: U64, num: U64, den: U64, qbit: U64)
    requires den0 > 0 && num0 == quot * den0 + num && den == den0 * qbit && den <= num
    ensures num0 == (quot + qbit) * den0 + (num - den) && quot + qbit < WORD
  {
    assert (quot + qbit) * den0 == quot * den0 + qbit * den0;
    AtMost(quot + qbit, den0);
  }

  lemma {:induction false} AtMost(a: nat, b: nat)
    requires b >= 1
    ensures a <= a * b
  {
    if a > 0 {
      AtMost(a - 1, b);
      assert a * b == (a - 1) * b + b;
    }
  }
}
