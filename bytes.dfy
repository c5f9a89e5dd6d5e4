/** Byte- and word-level helpers shared by the cipher and the protocol
    wrappers: Go's `uint8`/`uint32` arithmetic with its wrap-around,
    bitwise exclusive or, `encoding/binary.BigEndian`, and the
    `[]byte(string)` conversion.

    Bytes and words are integers in range; the bitwise operators the source
    applies with a power-of-two operand are written arithmetically
    (`v << 4` is `v * 16 mod 2^32`, `v >> 5` is `v / 32`, `v & 3` is
    `v % 4`), and exclusive or is defined bit by bit. */
module Bytes {

  type byte = x: int | 0 <= x < 0x100
  type uint16 = x: int | 0 <= x < 0x1_0000
  type uint32 = x: int | 0 <= x < 0x1_0000_0000

  const Modulus32: int := 0x1_0000_0000

  // ---------------------------------------------------------------------
  // uint32 arithmetic

  /** Go's `a + b` on `uint32`. */
  function Add32(a: uint32, b: uint32): uint32 {
    if a + b < Modulus32 then a + b else a + b - Modulus32
  }

  /** Go's `a - b` on `uint32`. */
  function Sub32(a: uint32, b: uint32): uint32 {
    if a >= b then a - b else a - b + Modulus32
  }

  /** Subtraction undoes addition, wrap-around included. */
  lemma Sub32Add32(a: uint32, b: uint32)
    ensures Sub32(Add32(a, b), b) == a
  {
  }

  /** Addition undoes subtraction, wrap-around included. */
  lemma Add32Sub32(a: uint32, b: uint32)
    ensures Add32(Sub32(a, b), b) == a
  {
  }

  lemma Add32Assoc(a: uint32, b: uint32, c: uint32)
    ensures Add32(Add32(a, b), c) == Add32(a, Add32(b, c))
  {
  }

  lemma Sub32Assoc(a: uint32, b: uint32, c: uint32)
    ensures Sub32(Sub32(a, b), c) == Sub32(a, Add32(b, c))
  {
  }

  // ---------------------------------------------------------------------
  // Exclusive or

  function Pow2(n: nat): (r: nat)
    ensures r >= 1
  {
    if n == 0 then 1 else 2 * Pow2(n - 1)
  }

  lemma Pow2Values()
    ensures Pow2(8) == 0x100 && Pow2(32) == Modulus32
  {
    assert Pow2(4) == 0x10;
    assert Pow2(8) == 0x100;
    assert Pow2(16) == 0x1_0000;
    assert Pow2(24) == 0x100_0000;
    assert Pow2(28) == 0x1000_0000;
  }

  /** Exclusive or of the low `n` bits of `a` and `b`. */
  function XorBits(n: nat, a: nat, b: nat): nat {
    if n == 0 then 0 else (a + b) % 2 + 2 * XorBits(n - 1, a / 2, b / 2)
  }

  /** The result has `n` bits. */
  lemma {:induction false} XorBitsBound(n: nat, a: nat, b: nat)
    ensures XorBits(n, a, b) < Pow2(n)
  {
    if n > 0 {
      XorBitsBound(n - 1, a / 2, b / 2);
    }
  }

  /** One step of `XorBitsCancel`: if the higher bits cancel, all do. */
  lemma XorBitsCancelStep(n: nat, a: nat, b: nat, t: nat)
    requires n > 0
    requires XorBits(n - 1, t, b / 2) == a / 2
    ensures XorBits(n, (a + b) % 2 + 2 * t, b) == a
  {
    var r := (a + b) % 2 + 2 * t;
    XorStep(a, b, t);
    assert XorBits(n, r, b) == (r + b) % 2 + 2 * XorBits(n - 1, r / 2, b / 2);
  }

  /** The low bit and the rest of one step of `XorBits`. */
  lemma XorStep(a: nat, b: nat, t: nat)
    ensures ((a + b) % 2 + 2 * t) / 2 == t
    ensures ((a + b) % 2 + 2 * t + b) % 2 == a % 2
  {
  }

  /** Applying the same mask twice gives back a value of `n` bits. */
  lemma {:induction false} XorBitsCancel(n: nat, a: nat, b: nat)
    requires a < Pow2(n)
    ensures XorBits(n, XorBits(n, a, b), b) == a
  {
    if n > 0 {
      XorBitsCancel(n - 1, a / 2, b / 2);
      XorBitsCancelStep(n, a, b, XorBits(n - 1, a / 2, b / 2));
    }
  }

  /** Go's `a ^ b` on bytes. */
  function XorByte(a: byte, b: byte): byte {
    Pow2Values();
    XorBitsBound(8, a, b);
    XorBits(8, a, b)
  }

  /** Go's `a ^ b` on `uint32`. */
  function Xor32(a: uint32, b: uint32): uint32 {
    Pow2Values();
    XorBitsBound(32, a, b);
    XorBits(32, a, b)
  }

  /** Byte-wise exclusive or of two equally long byte strings. */
  function Xor(a: seq<byte>, b: seq<byte>): (r: seq<byte>)
    requires |a| == |b|
    ensures |r| == |a|
  {
    if |a| == 0 then [] else [XorByte(a[0], b[0])] + Xor(a[1..], b[1..])
  }

  /** Exclusive or with the same string twice is the identity. */
  lemma {:induction false} XorCancel(a: seq<byte>, b: seq<byte>)
    requires |a| == |b|
    ensures Xor(Xor(a, b), b) == a
  {
    if |a| > 0 {
      var x := Xor(a, b);
      assert x[0] == XorByte(a[0], b[0]) && x[1..] == Xor(a[1..], b[1..]);
      Pow2Values();
      XorBitsCancel(8, a[0], b[0]);
      XorCancel(a[1..], b[1..]);
      assert a == [a[0]] + a[1..];
    }
  }

  // ---------------------------------------------------------------------
  // Big-endian encoding

  /** `binary.BigEndian.Uint16(b[0:2])`. */
  function Uint16BE(b: seq<byte>): uint16
    requires |b| >= 2
  {
    b[0] as int * 0x100 + b[1]
  }

  /** `binary.BigEndian.PutUint16`; the argument is reduced modulo 2^16 as
      Go's `uint16(n)` conversion does. */
  function PutUint16BE(n: nat): (b: seq<byte>)
    ensures |b| == 2
  {
    var m := n % 0x1_0000;
    [m / 0x100, m % 0x100]
  }

  lemma Uint16RoundTrip(n: uint16)
    ensures Uint16BE(PutUint16BE(n)) == n
  {
  }

  /** `binary.BigEndian.Uint32(b[0:4])`. */
  function Uint32BE(b: seq<byte>): uint32
    requires |b| >= 4
  {
    ((b[0] as int * 0x100 + b[1]) * 0x100 + b[2]) * 0x100 + b[3]
  }

  /** `binary.BigEndian.PutUint32`. */
  function PutUint32BE(w: uint32): (b: seq<byte>)
    ensures |b| == 4
  {
    [w / 0x100_0000, (w / 0x1_0000) % 0x100, (w / 0x100) % 0x100, w % 0x100]
  }

  lemma DivMod256(hi: int, lo: int)
    requires 0 <= lo < 0x100
    ensures (hi * 0x100 + lo) / 0x100 == hi && (hi * 0x100 + lo) % 0x100 == lo
  {
  }

  lemma DivDiv(x: nat)
    ensures x / 0x1_0000 == x / 0x100 / 0x100
    ensures x / 0x100_0000 == x / 0x100 / 0x100 / 0x100
  {
  }

  /** Reading back a written word gives the word. */
  lemma Uint32OfPut(w: uint32)
    ensures Uint32BE(PutUint32BE(w)) == w
  {
    DivDiv(w);
  }

  /** Writing back a read word gives the four bytes. */
  lemma PutOfUint32(b: seq<byte>)
    requires |b| == 4
    ensures PutUint32BE(Uint32BE(b)) == b
  {
    var h1: int := b[0] as int * 0x100 + b[1];
    var h2: int := h1 * 0x100 + b[2];
    DivMod256(h2, b[3]);
    DivMod256(h1, b[2]);
    DivMod256(b[0], b[1]);
    DivDiv(Uint32BE(b));
  }

  /** `binary.BigEndian.PutUint32(dst[off:off+4], w)`: writes four bytes and
      nothing else. */
  method PutUint32(dst: array<byte>, off: nat, w: uint32)
    requires off + 4 <= dst.Length
    modifies dst
    ensures dst[off..off + 4] == PutUint32BE(w)
    ensures forall k :: 0 <= k < dst.Length && !(off <= k < off + 4) ==> dst[k] == old(dst[k])
  {
    dst[off] := w / 0x100_0000;
    dst[off + 1] := w / 0x1_0000 % 0x100;
    dst[off + 2] := w / 0x100 % 0x100;
    dst[off + 3] := w % 0x100;
  }

  /** `n` copies of `x`, as `bytes.Repeat([]byte{x}, n)`. */
  function Repeat(x: byte, n: nat): (r: seq<byte>)
    ensures |r| == n && forall i :: 0 <= i < n ==> r[i] == x
  {
    seq(n, _ => x)
  }

  // ---------------------------------------------------------------------
  // Strings

  /** The UTF-8 encoding of one Unicode scalar value. */
  function Utf8Char(c: char): (r: seq<byte>)
    ensures 1 <= |r| <= 4
    ensures (|r| == 1) == (c as int < 0x80)
    ensures |r| == 1 ==> r[0] == c as int
  {
    var n := c as int;
    if n < 0x80 then [n as byte]
    else if n < 0x800 then [0xC0 + n / 0x40, 0x80 + n % 0x40]
    else if n < 0x1_0000 then
      [0xE0 + n / 0x1000, 0x80 + (n / 0x40) % 0x40, 0x80 + n % 0x40]
    else
      [0xF0 + n / 0x4_0000, 0x80 + (n / 0x1000) % 0x40, 0x80 + (n / 0x40) % 0x40, 0x80 + n % 0x40]
  }

  /** Go's `[]byte(s)`: the UTF-8 bytes of a string. */
  function Utf8(s: string): (r: seq<byte>)
    ensures |r| >= |s|
  {
    if s == [] then [] else Utf8Char(s[0]) + Utf8(s[1..])
  }

  /** An ASCII string converts character by character. */
  lemma {:induction false} Utf8Ascii(s: string)
    requires forall i :: 0 <= i < |s| ==> s[i] as int < 0x80
    ensures |Utf8(s)| == |s|
    ensures forall i :: 0 <= i < |s| ==> Utf8(s)[i] == s[i] as int
  {
    if s != [] {
      Utf8Ascii(s[1..]);
    }
  }
}
