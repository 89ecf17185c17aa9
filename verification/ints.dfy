/**
 * Machine integers of the handler. The model assumes a release build, where
 * Rust's `u32` arithmetic wraps around; a debug build instead panics on the
 * same overflows (`height * 50`, `width * height` and the channel
 * accumulators). `Wrap` says what a `u32` holds after an operation whose exact
 * result is `x`.
 */
module Ints {

  const Modulus: int := 0x1_0000_0000

  /** A Rust `u32`. */
  type U32 = x: int | 0 <= x < Modulus

  /** A Rust `u8`: one colour channel. */
  type Byte = x: int | 0 <= x < 256

  /** The `u32` that an exact result `x` wraps to. */
  function Wrap(x: nat): (r: U32)
    ensures x < Modulus ==> r == x
    ensures r <= x && (x - r) % Modulus == 0
  {
    x % Modulus
  }

  /** Adding to a wrapped value wraps like adding to the exact one. */
  lemma WrapAdd(a: nat, b: nat)
    ensures Wrap(Wrap(a) + b) == Wrap(a + b)
  {
    var q := a / Modulus;
    assert a == q * Modulus + Wrap(a);
    assert a + b == q * Modulus + (Wrap(a) + b);
  }

  // Arithmetic facts about multiplication and division by a variable.

  lemma DivBound(n: nat, d: nat)
    requires d > 0
    ensures n / d <= n
  {
    assert (n / d) * d + n % d == n;
    MulMono(1, d, n / d);
  }

  lemma MulSucc(a: int, n: int)
    ensures a * (n + 1) == a * n + a
  {
  }

  /** (x + 1) c and (x - 1) c, multiplied out. */
  lemma MulNext(x: int, c: int)
    ensures (x + 1) * c == x * c + c && (x - 1) * c == x * c - c
  {
  }

  lemma DoubleMul(a: nat, count: nat)
    ensures (2 * a) * count == 2 * (a * count)
  {
  }

  lemma MulMono(a: int, b: int, c: nat)
    requires a <= b
    ensures a * c <= b * c
  {
  }

  lemma MulLeCancel(a: int, b: int, c: int)
    requires c > 0 && a * c <= b * c
    ensures a <= b
  {
  }

  lemma MulLtCancel(a: int, b: int, c: int)
    requires c > 0 && a * c < b * c
    ensures a < b
  {
  }
}
