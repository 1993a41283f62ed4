/** Unsigned machine words as naturals: shifts, bitwise or, and the bit-smearing
    round-up to a power of two used for buffer capacities. */
module Bits {
  import opened Bytes

  function Pow2(k: nat): (p: nat)
    ensures p >= 1
  {
    if k == 0 then 1 else 2 * Pow2(k - 1)
  }

  predicate Bit(n: nat, i: nat) {
    if i == 0 then n % 2 == 1 else Bit(n / 2, i - 1)
  }

  /** `n >> s` */
  function Shr(n: nat, s: nat): nat {
    if s == 0 then n else Shr(n / 2, s - 1)
  }

  /** `a | b` */
  function Or(a: nat, b: nat): nat {
    if a == 0 && b == 0 then 0
    else (if a % 2 == 1 || b % 2 == 1 then 1 else 0) + 2 * Or(a / 2, b / 2)
  }

  ghost predicate IsPow2(n: nat) { exists k: nat :: n == Pow2(k) }

  lemma OrHalves(a: nat, b: nat)
    ensures Or(a, b) % 2 == (if a % 2 == 1 || b % 2 == 1 then 1 else 0) && Or(a, b) / 2 == Or(a / 2, b / 2)
  {}

  lemma {:induction false} BitOfOr(a: nat, b: nat, i: nat)
    ensures Bit(Or(a, b), i) == (Bit(a, i) || Bit(b, i))
  {
    OrHalves(a, b);
    if i > 0 { BitOfOr(a / 2, b / 2, i - 1); }
  }

  lemma {:induction false} BitOfShr(n: nat, s: nat, i: nat)
    ensures Bit(Shr(n, s), i) == Bit(n, i + s)
  {
    if s > 0 { BitOfShr(n / 2, s - 1, i); }
  }

  lemma {:induction false} ShrBelow(n: nat, s: nat)
    ensures Shr(n, s) <= n
  {
    if s > 0 { ShrBelow(n / 2, s - 1); }
  }

  lemma {:induction false} OrBelow(a: nat, b: nat, k: nat)
    requires a < Pow2(k) && b < Pow2(k)
    ensures Or(a, b) < Pow2(k)
  {
    if k > 0 { OrBelow(a / 2, b / 2, k - 1); }
  }

  lemma {:induction false} AllOnes(n: nat, k: nat)
    requires n < Pow2(k)
    requires forall i: nat :: i < k ==> Bit(n, i)
    ensures n == Pow2(k) - 1
  {
    if k > 0 {
      forall i: nat | i < k - 1 ensures Bit(n / 2, i) { assert Bit(n, i + 1); }
      AllOnes(n / 2, k - 1);
      assert Bit(n, 0);
    }
  }

  /** The position just above the highest set bit. */
  function Width(n: nat): nat {
    if n == 0 then 0 else 1 + Width(n / 2)
  }

  lemma {:induction false} WidthBounds(n: nat)
    requires n > 0
    ensures Width(n) > 0 && Pow2(Width(n) - 1) <= n < Pow2(Width(n))
    ensures Bit(n, Width(n) - 1)
  {
    if n > 1 { WidthBounds(n / 2); }
  }

  lemma {:induction false} Pow2Monotone(a: nat, b: nat)
    requires a <= b
    ensures Pow2(a) <= Pow2(b)
  {
    if a < b { Pow2Monotone(a, b - 1); }
  }

  lemma {:induction false} WidthAtMost(n: nat, k: nat)
    requires n < Pow2(k)
    ensures Width(n) <= k
  {
    if n > 0 { WidthAtMost(n / 2, k - 1); }
  }

  /** The `m` highest of the low `k` bits are set and nothing above them is. */
  ghost predicate TopOnes(n: nat, k: nat, m: nat) {
    n < Pow2(k) && forall i: nat :: k - m <= i < k ==> Bit(n, i)
  }

  /** One smearing step doubles the run of ones. */
  lemma {:induction false} SmearStep(n: nat, k: nat, m: nat)
    requires TopOnes(n, k, m)
    ensures TopOnes(Or(n, Shr(n, m)), k, 2 * m)
  {
    ShrBelow(n, m);
    OrBelow(n, Shr(n, m), k);
    forall i: nat | k - 2 * m <= i < k ensures Bit(Or(n, Shr(n, m)), i) {
      BitOfOr(n, Shr(n, m), i);
      BitOfShr(n, m, i);
    }
  }

  const MIN_CAPACITY: nat := 128

  /** The least power of two not below `n`, at least MIN_CAPACITY. */
  function LeastPow2(n: nat): nat { if n <= MIN_CAPACITY then MIN_CAPACITY else Pow2(Width(n - 1)) }

  lemma LeastPow2Is(n: nat)
    ensures n <= LeastPow2(n) && IsPow2(LeastPow2(n)) && (n > MIN_CAPACITY ==> LeastPow2(n) < 2 * n)
  {
    Pow2Table();
    if n <= MIN_CAPACITY { assert LeastPow2(n) == Pow2(7); } else { WidthBounds(n - 1); }
  }

  /** All the smearing steps: the highest bit spreads down to bit zero. */
  method Smear(n: nat, ghost k: nat) returns (w: nat)
    requires TopOnes(n, k, 1) && k <= 64
    ensures w == Pow2(k) - 1
  {
    w := n;
    SmearStep(w, k, 1);   w := Or(w, Shr(w, 1));
    SmearStep(w, k, 2);   w := Or(w, Shr(w, 2));
    SmearStep(w, k, 4);   w := Or(w, Shr(w, 4));
    SmearStep(w, k, 8);   w := Or(w, Shr(w, 8));
    SmearStep(w, k, 16);  w := Or(w, Shr(w, 16));
    SmearStep(w, k, 32);  w := Or(w, Shr(w, 32));
    AllOnes(w, k);
  }

  /** 2^63, the largest power of two in a 64-bit word */
  const HALF: nat := 0x8000_0000_0000_0000

  /** A power of two in 64 bits: it wraps exactly when it is 2^64. */
  lemma PowerWraps(k: nat)
    requires k <= 64
    ensures Pow2(k) % U64 == if k < 64 then Pow2(k) else 0
    ensures k < 64 ==> Pow2(k) <= HALF
  {
    Pow2Table();
    if k < 64 { Pow2Monotone(k, 63); }
  }

  lemma WidthAtHalf(n: nat)
    requires n < U64
    ensures Width(n) <= 64 && (Width(n) == 64 <==> n >= HALF)
  {
    Pow2Table();
    WidthAtMost(n, 64);
    if n < HALF { WidthAtMost(n, 63); } else { WidthBounds(n); }
    if n >= HALF && Width(n) < 64 { Pow2Monotone(Width(n), 63); }
  }

  /** Where the 64-bit word wraps. */
  lemma Wraps(n: nat, k: nat)
    requires 1 < n < U64 && k == Width(n - 1)
    ensures k <= 64 && TopOnes(n - 1, k, 1) && Pow2(k) % U64 == if n <= HALF then Pow2(k) else 0
  {
    WidthBounds(n - 1);
    WidthAtHalf(n - 1);
    PowerWraps(k);
  }

  /** Least power of two not below `n`, at least MIN_CAPACITY; the 64-bit word wraps to 0
      above 2^63, where no such power is representable. */
  method NextPowerOfTwo(n: nat) returns (r: nat)
    requires n < U64
    ensures n <= MIN_CAPACITY ==> r == MIN_CAPACITY
    ensures MIN_CAPACITY < n <= HALF ==> IsPow2(r) && n <= r < 2 * n
    ensures n <= HALF ==> r == LeastPow2(n)
    ensures n > HALF ==> r == 0
  {
    if n <= MIN_CAPACITY { return MIN_CAPACITY; }
    ghost var k := Width(n - 1);
    Wraps(n, k);
    LeastPow2Is(n);
    var w := Smear(n - 1, k);
    r := (w + 1) % U64;
  }

  lemma {:induction false} Pow2Add(a: nat, b: nat)
    ensures Pow2(a + b) == Pow2(a) * Pow2(b)
  {
    if a > 0 {
      Pow2Add(a - 1, b);
      assert Pow2(a + b) == 2 * Pow2(a - 1 + b);
    }
  }

  lemma Pow2Table()
    ensures Pow2(7) == 128 && Pow2(32) == U32 && Pow2(63) == HALF && Pow2(64) == U64
  {
    Pow2Sixteen();
    Pow2Add(16, 16);
    Pow2Add(32, 32);
  }

  lemma Pow2Sixteen()
    ensures Pow2(7) == 128 && Pow2(16) == 65536
  {}
}
