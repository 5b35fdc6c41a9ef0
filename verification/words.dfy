/** Machine-word arithmetic the allocator's C++ code relies on implicitly:
    the width of `size_t`, conversions between `size_t` and a 32-bit `int`,
    and the wrap-around these conversions perform. Dafny's integers are
    unbounded, so every conversion is written out here. */
module Words {

  /** 2^k. */
  function Pow2(k: nat): (r: nat)
    ensures r >= 1
  {
    if k == 0 then 1 else 2 * Pow2(k - 1)
  }

  lemma {:induction false} Pow2Add(a: nat, b: nat)
    ensures Pow2(a + b) == Pow2(a) * Pow2(b)
    decreases a
  {
    if a > 0 {
      Pow2Add(a - 1, b);
      assert Pow2(a + b) == 2 * Pow2(a - 1 + b);
    }
  }

  /** 2^k grows with k; in particular every word of at least 32 bits can
      hold every non-negative 32-bit `int`. */
  lemma {:induction false} Pow2Monotone(a: nat, b: nat)
    requires a <= b
    ensures Pow2(a) <= Pow2(b)
    decreases b
  {
    if a < b {
      Pow2Monotone(a, b - 1);
    }
  }

  const INT_MODULUS: int := 0x1_0000_0000
  const INT_MIN: int := -0x8000_0000
  const INT_MAX: int := 0x7FFF_FFFF

  /** The widths the concrete examples use, computed by repeated squaring. */
  lemma Pow2Values()
    ensures Pow2(32) == INT_MODULUS
    ensures Pow2(64) == 0x1_0000_0000_0000_0000
  {
    assert Pow2(1) == 2;
    assert Pow2(2) == 4;
    Pow2Add(2, 2);
    Pow2Add(4, 4);
    Pow2Add(8, 8);
    Pow2Add(16, 16);
    Pow2Add(32, 32);
  }

  /** A word of at least 32 bits holds every 32-bit value. */
  lemma WordHoldsInt(bits: nat)
    ensures bits >= 32 ==> Pow2(bits) >= INT_MODULUS
  {
    Pow2Values();
    if bits >= 32 {
      Pow2Monotone(32, bits);
    }
  }

  /** Conversion of any integer value to a `size_t` of `bits` bits
      (modular, as C++ defines conversion to an unsigned type). */
  function ToSize(bits: nat, x: int): (r: nat)
    ensures r < Pow2(bits)
    ensures 0 <= x < Pow2(bits) ==> r == x
    ensures x < 0 <= x + Pow2(bits) ==> r == x + Pow2(bits)
  {
    var m := Pow2(bits);
    if 0 <= x < m then x
    else if x < 0 <= x + m then x + m
    else x % m
  }

  /** Conversion of any integer value to a 32-bit two's-complement `int`
      (the modular rule of C++20; earlier standards leave it to the
      implementation, and every mainstream compiler does the same). */
  function ToInt(x: int): (r: int)
    ensures INT_MIN <= r <= INT_MAX
    ensures INT_MIN <= x <= INT_MAX ==> r == x
  {
    var m := x % INT_MODULUS;
    if m > INT_MAX then m - INT_MODULUS else m
  }
}
