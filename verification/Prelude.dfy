/** Small shared vocabulary: optional values, 64-bit words and exact division facts. */
module Prelude {

  datatype Option<+T> = None | Some(value: T)

  /** Number of values of a `uintptr_t` / `size_t` on the target. */
  const WORD: nat := 0x1_0000_0000_0000_0000

  /** Unsigned 64-bit truncation: what every C `uintptr_t` result is reduced by. */
  function U64(x: int): (r: nat) {
    x % WORD
  }

  lemma U64Small(x: int)
    requires 0 <= x < WORD
    ensures U64(x) == x
  {
  }

  lemma U64Wraps(x: int)
    requires WORD <= x < 2 * WORD
    ensures U64(x) == x - WORD
  {
  }

  ghost predicate Divides(a: nat, x: int) {
    a > 0 && x % a == 0
  }

  /** A nonzero multiple of `a` is at least `a` away from zero. */
  lemma MultipleGap(d: int, a: int)
    requires a > 0
    ensures d == 0 || d * a >= a || d * a <= -a
  {
    if d > 0 {
      assert (d - 1) * a >= 0;
    } else if d < 0 {
      assert (-d - 1) * a >= 0;
    }
  }

  /** Quotient and remainder are the unique pair with `0 <= r < a`. */
  lemma DivModUnique(x: int, a: int, q: int, r: int)
    requires 0 <= r < a && x == q * a + r
    ensures x / a == q && x % a == r
  {
    assert (q - x / a) * a == x % a - r by {
      assert x == x / a * a + x % a;
    }
    MultipleGap(q - x / a, a);
  }

  lemma Distribute(x: int, y: int, a: int)
    ensures (x + y) * a == x * a + y * a
  {
  }

  lemma MultipleHasNoRemainder(q: int, a: int)
    requires a > 0
    ensures (q * a) % a == 0 && (q * a) / a == q
  {
    DivModUnique(q * a, a, q, 0);
  }

  lemma DivisorIsSmaller(a: nat, x: nat)
    requires Divides(a, x) && x > 0
    ensures a <= x
  {
    assert x == x / a * a;
    MultipleGap(x / a, a);
  }

  lemma DividesTrans(a: nat, b: nat, x: int)
    requires Divides(a, b) && Divides(b, x)
    ensures Divides(a, x)
  {
    var k, m := b / a, x / b;
    assert x == (m * k) * a by {
      assert b == k * a && x == m * b;
    }
    MultipleHasNoRemainder(m * k, a);
  }

  lemma DividesSum(a: nat, x: int, y: int)
    requires Divides(a, x) && Divides(a, y)
    ensures Divides(a, x + y)
  {
    assert x + y == (x / a + y / a) * a;
    MultipleHasNoRemainder(x / a + y / a, a);
  }
}
