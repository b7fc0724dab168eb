/**
  CHERI bounds precision. A capability stores its bounds in a compressed form: a region of
  length `len` is exact only when its base and top are multiples of `Align(len)`.
  Lengths of at most 12 bits are exact; longer ones keep their 10 leading bits.
 */
module Representable {
  import opened Prelude

  const EXACT_BITS: nat := 12
  const KEPT_BITS: nat := 10

  function Pow2(n: nat): (p: nat)
    ensures p > 0
  {
    if n == 0 then 1 else 2 * Pow2(n - 1)
  }

  ghost predicate IsPow2(n: nat) {
    exists e: nat :: n == Pow2(e)
  }

  /** Number of significant bits. */
  function BitLen(n: nat): nat {
    if n == 0 then 0 else 1 + BitLen(n / 2)
  }

  function AlignExponent(len: nat): nat {
    if BitLen(len) <= EXACT_BITS then 0 else BitLen(len) - KEPT_BITS
  }

  /** The alignment whose complement is `cheri_representable_alignment_mask(len)`. */
  function Align(len: nat): (a: nat)
    ensures a > 0
  {
    Pow2(AlignExponent(len))
  }

  function Down(x: nat, a: nat): nat
    requires a > 0
  {
    x / a * a
  }

  function Up(x: nat, a: nat): nat
    requires a > 0
  {
    (x + a - 1) / a * a
  }

  /** The smallest exactly representable length that is at least `len`. */
  function ReprLen(len: nat): nat {
    Up(len, Align(len))
  }

  lemma DownBounds(x: nat, a: nat)
    requires a > 0
    ensures Down(x, a) <= x < Down(x, a) + a
    ensures Divides(a, Down(x, a))
  {
    assert x == x / a * a + x % a;
    MultipleHasNoRemainder(x / a, a);
  }

  lemma UpBounds(x: nat, a: nat)
    requires a > 0
    ensures x <= Up(x, a) < x + a
    ensures Divides(a, Up(x, a))
  {
    DownBounds(x + a - 1, a);
  }

  /** `Up` is the least multiple that is not below its argument. */
  lemma UpLeast(x: nat, a: nat, m: nat)
    requires a > 0 && Divides(a, m) && x <= m
    ensures Up(x, a) <= m
  {
    UpBounds(x, a);
    var u, v := Up(x, a) / a, m / a;
    assert (u - v) * a == Up(x, a) - m by {
      assert Up(x, a) == u * a && m == v * a;
    }
    MultipleGap(u - v, a);
  }

  lemma AlignedIsFixed(x: nat, a: nat)
    requires Divides(a, x)
    ensures Up(x, a) == x && Down(x, a) == x
  {
    UpBounds(x, a);
    UpLeast(x, a, x);
    assert x == x / a * a;
  }

  lemma UpMonotone(x: nat, y: nat, a: nat)
    requires a > 0 && x <= y
    ensures Up(x, a) <= Up(y, a)
  {
    UpBounds(y, a);
    UpLeast(x, a, Up(y, a));
  }

  /** Rounding up commutes with shifting by a multiple. */
  lemma UpShift(a: nat, x: nat, al: nat)
    requires Divides(al, a)
    ensures Up(a + x, al) == a + Up(x, al)
  {
    var k, y := a / al, x + al - 1;
    Distribute(k, y / al, al);
    assert a == k * al && y == y / al * al + y % al;
    DivModUnique(a + y, al, k + y / al, y % al);
  }

  lemma {:induction false} Pow2Add(m: nat, n: nat)
    ensures Pow2(m + n) == Pow2(m) * Pow2(n)
  {
    if m == 0 {
    } else {
      Pow2Add(m - 1, n);
      assert Pow2(m + n) == 2 * (Pow2(m - 1) * Pow2(n)) == (2 * Pow2(m - 1)) * Pow2(n);
    }
  }

  lemma Pow2Divides(m: nat, n: nat)
    requires m <= n
    ensures Divides(Pow2(m), Pow2(n))
  {
    Pow2Add(n - m, m);
    MultipleHasNoRemainder(Pow2(n - m), Pow2(m));
  }

  lemma {:induction false} BitLenBounds(n: nat)
    ensures n < Pow2(BitLen(n))
    ensures n > 0 ==> BitLen(n) > 0 && Pow2(BitLen(n) - 1) <= n
  {
    if n == 0 {
    } else {
      BitLenBounds(n / 2);
      if n / 2 == 0 {
        assert n == 1;
      }
    }
  }

  lemma {:induction false} Pow2Grows(m: nat, n: int)
    ensures m < n ==> 2 * Pow2(m) <= Pow2(n)
    decreases n - m
  {
    if n > m + 1 {
      Pow2Grows(m, n - 1);
    }
  }

  lemma BitLenMonotone(x: nat, y: nat)
    requires x <= y
    ensures BitLen(x) <= BitLen(y)
  {
    BitLenBounds(x);
    BitLenBounds(y);
    Pow2Grows(BitLen(y), BitLen(x) - 1);
  }

  lemma BitLenExact(n: nat, b: nat)
    requires Pow2(b) <= n < 2 * Pow2(b)
    ensures BitLen(n) == b + 1
  {
    BitLenBounds(n);
    Pow2Grows(BitLen(n), b);
    Pow2Grows(b, BitLen(n) - 1);
    Pow2Grows(b + 1, BitLen(n) - 1);
  }

  /** A longer region is aligned for every shorter one. */
  lemma AlignMonotone(x: nat, y: nat)
    requires x <= y
    ensures Divides(Align(x), Align(y))
  {
    BitLenMonotone(x, y);
    Pow2Divides(AlignExponent(x), AlignExponent(y));
  }

  lemma ReprLenBounds(len: nat)
    ensures len <= ReprLen(len) < len + Align(len)
    ensures Divides(Align(len), ReprLen(len))
    ensures ReprLen(len) <= Pow2(BitLen(len))
  {
    UpBounds(len, Align(len));
    BitLenBounds(len);
    Pow2Divides(AlignExponent(len), BitLen(len));
    UpLeast(len, Align(len), Pow2(BitLen(len)));
  }

  lemma SameBitLen(x: nat, y: nat)
    requires x <= y < Pow2(BitLen(x))
    ensures BitLen(y) == BitLen(x)
  {
    BitLenMonotone(x, y);
    BitLenBounds(y);
    Pow2Grows(BitLen(x), BitLen(y) - 1);
  }

  lemma ReprLenOfPow2IsAligned(b: nat)
    ensures Divides(Align(Pow2(b)), Pow2(b))
  {
    BitLenExact(Pow2(b), b);
    Pow2Divides(AlignExponent(Pow2(b)), b);
  }

  /** Rounding may carry into the next power of two, and even then it is aligned for itself. */
  lemma ReprLenSelfAligned(len: nat)
    ensures Divides(Align(ReprLen(len)), ReprLen(len))
    ensures Divides(Align(len), Align(ReprLen(len)))
  {
    ReprLenBounds(len);
    AlignMonotone(len, ReprLen(len));
    if ReprLen(len) == Pow2(BitLen(len)) {
      ReprLenOfPow2IsAligned(BitLen(len));
    } else {
      SameBitLen(len, ReprLen(len));
    }
  }

  /** Representable rounding is idempotent: `cheri_representable_length` of its own result is that result. */
  lemma ReprLenIdempotent(len: nat)
    ensures ReprLen(ReprLen(len)) == ReprLen(len)
  {
    ReprLenSelfAligned(len);
    AlignedIsFixed(ReprLen(len), Align(ReprLen(len)));
  }

  lemma ShorterBitLenIsBelow(x: nat, y: nat)
    requires BitLen(x) < BitLen(y)
    ensures Pow2(BitLen(x)) <= y
  {
    BitLenBounds(y);
    Pow2Grows(BitLen(x), BitLen(y) - 1);
  }

  /** Representable rounding is monotone. */
  lemma ReprLenMonotone(x: nat, y: nat)
    requires x <= y
    ensures ReprLen(x) <= ReprLen(y)
  {
    BitLenMonotone(x, y);
    if BitLen(x) == BitLen(y) {
      UpMonotone(x, y, Align(x));
    } else {
      ReprLenBounds(x);
      ShorterBitLenIsBelow(x, y);
      UpBounds(y, Align(y));
    }
  }
}
