/** Shared vocabulary of the simulator: bytes, optional values and the unsigned
    bit operations (`>>`, `<<`, `|`) that the C sources use to split and rebuild
    addresses, written over natural numbers. */
module Common {

  datatype Option<T> = None | Some(value: T)

  /** One `data_byte` (an 8-bit unsigned bit-field). */
  type Byte = b: nat | b < 256

  /** `size` zero bytes: the model's choice for data the C leaves uninitialised. */
  function Zeros(size: nat): (r: seq<Byte>)
    ensures |r| == size
  {
    seq(size, _ => 0)
  }

  function Pow2(n: nat): (r: nat)
    ensures r >= 1
  {
    if n == 0 then 1 else 2 * Pow2(n - 1)
  }

  /** The powers of two the geometry macros of the simulator use. */
  lemma Pow2Values()
    ensures Pow2(1) == 2 && Pow2(3) == 8 && Pow2(4) == 16 && Pow2(5) == 32
    ensures Pow2(6) == 64 && Pow2(9) == 512 && Pow2(11) == 2048
    ensures Pow2(12) == 4096 && Pow2(14) == 16384 && Pow2(16) == 65536
    ensures Pow2(20) == 0x10_0000 && Pow2(22) == 0x40_0000 && Pow2(23) == 0x80_0000
    ensures Pow2(25) == 0x200_0000
  {
  }

  /** Division and remainder are determined by any quotient and remainder in range. */
  lemma DivModUnique(x: nat, d: nat, q: nat, m: nat)
    requires 0 <= m < d && x == d * q + m
    ensures x / d == q && x % d == m
  {
    var q', m' := x / d, x % d;
    assert x == d * q' + m';
    if q' > q {
      assert d * q' == d * q + d * (q' - q);
      MulAtLeast(d, q' - q);
    } else if q' < q {
      assert d * q == d * q' + d * (q - q');
      MulAtLeast(d, q - q');
    }
  }

  lemma MulAtLeast(d: nat, k: nat)
    requires k >= 1
    ensures d * k >= d
  {
  }

  /** Unsigned `x >> k`. Each caller shifts by a fixed amount and stores the
      result in a bounded field type, which is where its range is checked. */
  function ShiftRight(x: nat, k: nat): int
  {
    x / Pow2(k)
  }

  /** Unsigned `x << k`; every use in the model stays below 2^25, far inside the
      32 bits of an `unsigned int`, so no bits are lost. */
  function ShiftLeft(x: nat, k: nat): nat
  {
    x * Pow2(k)
  }

  /** Bitwise `a | b` on unsigned values, bit by bit from the least significant. */
  function BitOr(a: nat, b: nat): nat
    decreases a + b
  {
    if a == 0 then b
    else if b == 0 then a
    else 2 * BitOr(a / 2, b / 2) + (if a % 2 == 1 || b % 2 == 1 then 1 else 0)
  }

  /** Or-ing a value into the zero low bits of a shifted value is addition: the
      reason `(tag << n) | low` rebuilds an address when `low < 2^n`. */
  lemma {:induction false} BitOrDisjoint(a: nat, b: nat, k: nat)
    requires b < Pow2(k)
    ensures BitOr(ShiftLeft(a, k), b) == ShiftLeft(a, k) + b
  {
    var hi := a * Pow2(k);
    if k == 0 {
      assert b == 0;
    } else if hi == 0 || b == 0 {
    } else {
      var lower := a * Pow2(k - 1);
      assert hi == 2 * lower;
      assert hi / 2 == lower && hi % 2 == 0;
      assert b / 2 < Pow2(k - 1);
      BitOrDisjoint(a, b / 2, k - 1);
      assert BitOr(lower, b / 2) == lower + b / 2;
      calc {
        BitOr(hi, b);
        2 * BitOr(hi / 2, b / 2) + (if b % 2 == 1 then 1 else 0);
        2 * (lower + b / 2) + b % 2;
        hi + b;
      }
    }
  }
}
