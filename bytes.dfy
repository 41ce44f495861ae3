/** Byte strings and the fixed-width integers the wire format uses. */
module Bytes {

  /** A Rust `u8`. */
  newtype byte = x: int | 0 <= x < 0x100

  /** A Rust `Vec<u8>` / `&[u8]`. */
  type Bytes = seq<byte>

  /** A Rust `u32`. */
  type u32 = x: nat | x < 0x1_0000_0000

  const U8_MAX: nat := 0xFF
  const U16_MAX: nat := 0xFFFF

  /** `n` copies of `b`, as `vec![b; n]`. */
  function Filled(n: nat, b: byte): (r: Bytes)
    ensures |r| == n && forall i :: 0 <= i < n ==> r[i] == b
  {
    seq(n, _ => b)
  }

  /** `n` zero bytes, as `vec![0u8; n]` or `Default::default()` for a byte array. */
  function Zeros(n: nat): (r: Bytes)
    ensures |r| == n && forall i :: 0 <= i < n ==> r[i] == 0
  {
    Filled(n, 0)
  }

  /** The value of two bytes read big-endian, as `u16::from_be_bytes([hi, lo])`. */
  function FromU16BE(hi: byte, lo: byte): (n: nat)
    ensures n <= U16_MAX
  {
    hi as int * 0x100 + lo as int
  }

  /** `n.to_be_bytes()` for a `u16`: the two bytes that read back big-endian as `n`. */
  function ToU16BE(n: nat): (r: Bytes)
    requires n <= U16_MAX
    ensures |r| == 2 && FromU16BE(r[0], r[1]) == n
  {
    [(n / 0x100) as byte, (n % 0x100) as byte]
  }

  /** Reading two bytes and writing their value back gives the same two bytes. */
  lemma ToFromU16BE(hi: byte, lo: byte)
    ensures ToU16BE(FromU16BE(hi, lo)) == [hi, lo]
  {
    var n := FromU16BE(hi, lo);
    assert n / 0x100 == hi as int && n % 0x100 == lo as int;
  }

  /** 2 to the power `n`. */
  function Pow2(n: nat): (p: nat)
    ensures p >= 1
  {
    if n == 0 then 1 else 2 * Pow2(n - 1)
  }

  /**
   * Bitwise exclusive or of the low `width` bits of `a` and `b`, least
   * significant bit last: the bits agree where the sum of the two bits is even.
   */
  function XorBits(a: nat, b: nat, width: nat): (r: nat)
    ensures r < Pow2(width)
  {
    if width == 0 then 0 else 2 * XorBits(a / 2, b / 2, width - 1) + (a + b) % 2
  }

  /** Bitwise exclusive or of two bytes, the `^` of Rust's `u8`. */
  function Xor(a: byte, b: byte): byte
  {
    assert Pow2(8) == 0x100;
    XorBits(a as nat, b as nat, 8) as byte
  }

  /** Bitwise and of the low `width` bits of `a` and `b`: a bit is set where both are. */
  function AndBits(a: nat, b: nat, width: nat): (r: nat)
    ensures r < Pow2(width)
  {
    if width == 0 then 0 else 2 * AndBits(a / 2, b / 2, width - 1) + (if a % 2 == 1 && b % 2 == 1 then 1 else 0)
  }

  /** Bitwise or of the low `width` bits of `a` and `b`: a bit is set where either is. */
  function OrBits(a: nat, b: nat, width: nat): (r: nat)
    ensures r < Pow2(width)
  {
    if width == 0 then 0 else 2 * OrBits(a / 2, b / 2, width - 1) + (if a % 2 == 1 || b % 2 == 1 then 1 else 0)
  }

  /** And with zero clears every bit. */
  lemma {:induction false} AndZero(a: nat, width: nat)
    ensures AndBits(a, 0, width) == 0
  {
    if width > 0 {
      AndZero(a / 2, width - 1);
    }
  }

  /** Or with zero keeps every bit of a value that fits the width. */
  lemma {:induction false} OrZero(a: nat, width: nat)
    requires a < Pow2(width)
    ensures OrBits(a, 0, width) == a
  {
    if width == 0 {
      assert a == 0;
    } else {
      HalfBelow(a, Pow2(width - 1));
      OrZero(a / 2, width - 1);
    }
  }

  /** `a & 0x01` is the lowest bit of `a`. */
  lemma AndLowBit(a: nat, width: nat)
    requires width > 0
    ensures AndBits(a, 1, width) == a % 2
  {
    AndZero(a / 2, width - 1);
  }

  /** `a | 0x01` sets the lowest bit of `a` and keeps the others. */
  lemma OrLowBit(a: nat, width: nat)
    requires width > 0 && a < Pow2(width)
    ensures OrBits(a, 1, width) == 2 * (a / 2) + 1
  {
    HalfBelow(a, Pow2(width - 1));
    OrZero(a / 2, width - 1);
  }

  /** Halving undoes appending a low bit. */
  lemma AppendBit(r: nat, bit: nat)
    requires bit < 2
    ensures (2 * r + bit) / 2 == r && (2 * r + bit) % 2 == bit
  {
  }

  /** Adding the same bit twice changes no parity. */
  lemma ParityTwice(a: nat, b: nat)
    ensures ((a + b) % 2 + b) % 2 == a % 2
  {
    var x, y := a % 2, b % 2;
    assert a == 2 * (a / 2) + x && b == 2 * (b / 2) + y;
    assert (a + b) % 2 == (x + y) % 2;
    assert ((x + y) % 2 + b) % 2 == ((x + y) % 2 + y) % 2;
  }

  /** An even summand does not change parity. */
  lemma EvenShift(r: nat, k: nat)
    ensures (2 * r + k) % 2 == k % 2
  {
  }

  /** A value below twice a bound halves to a value below the bound. */
  lemma HalfBelow(a: nat, p: nat)
    requires a < 2 * p
    ensures a / 2 < p
  {
  }

  /** Within `width` bits, exclusive or with the same value twice is the identity. */
  lemma {:induction false} XorBitsInvolutive(a: nat, b: nat, width: nat)
    requires a < Pow2(width)
    ensures XorBits(XorBits(a, b, width), b, width) == a
  {
    if width == 0 {
      assert a == 0;
    } else {
      var rest := XorBits(a / 2, b / 2, width - 1);
      var bit := (a + b) % 2;
      var c := 2 * rest + bit;
      assert XorBits(a, b, width) == c;
      AppendBit(rest, bit);
      HalfBelow(a, Pow2(width - 1));
      XorBitsInvolutive(a / 2, b / 2, width - 1);
      assert XorBits(c, b, width) == 2 * XorBits(rest, b / 2, width - 1) + (c + b) % 2;
      EvenShift(rest, bit + b);
      ParityTwice(a, b);
      assert (c + b) % 2 == a % 2;
      assert a == 2 * (a / 2) + a % 2;
    }
  }

  /** Exclusive or with the same byte twice is the identity. */
  lemma XorInvolutive(a: byte, b: byte)
    ensures Xor(Xor(a, b), b) == a
  {
    assert Pow2(8) == 0x100;
    XorBitsInvolutive(a as nat, b as nat, 8);
  }
}
