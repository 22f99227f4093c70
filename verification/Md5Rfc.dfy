/** Sections 3.1 to 3.4 of RFC 1321: padding, blocks, and the 64 steps on a block. */
module Md5Rfc {

  type Byte = x: int | 0 <= x < 256

  // ----- sections 3.1 and 3.2: padding

  const TWO64: nat := 0x1_0000_0000_0000_0000

  function Zeros(n: nat): (z: seq<Byte>)
    ensures |z| == n && forall i :: 0 <= i < n ==> z[i] == 0
  {
    seq(n, _ => 0)
  }

  /** The low-order bytes of a number, lowest first. */
  function LittleEndian(k: nat, n: nat): (s: seq<Byte>)
    ensures |s| == k
  {
    if k == 0 then [] else [n % 256] + LittleEndian(k - 1, n / 256)
  }

  /** The least number of zeros behind the 1 bit that leaves room for the length. */
  function ZeroCount(n: nat): (z: nat)
    ensures z < 64 && (n + 1 + z) % 64 == 56
  {
    (55 - n % 64 + 64) % 64
  }

  function Padded(m: seq<Byte>): seq<Byte> {
    m + [0x80] + Zeros(ZeroCount(|m|)) + LittleEndian(8, 8 * |m| % TWO64)
  }

  // ----- section 3.4: the rounds

  /** A 32-bit word, lowest bit first. */
  type Word = w: seq<bool> | |w| == 32 witness seq(32, _ => false)

  function Pow2(k: nat): (p: nat)
    ensures p > 0
  {
    if k == 0 then 1 else 2 * Pow2(k - 1)
  }

  function Value(s: seq<bool>): nat { if s == [] then 0 else (if s[0] then 1 else 0) + 2 * Value(s[1..]) }

  /** The low-order 32 bits of a number. */
  function OfNat(n: nat): Word { seq(32, i requires 0 <= i < 32 => n / Pow2(i) % 2 == 1) }

  /** Addition modulo 2^32. */
  function Plus(x: Word, y: Word): Word { OfNat(Value(x) + Value(y)) }

  function And(x: Word, y: Word): Word { seq(32, i requires 0 <= i < 32 => x[i] && y[i]) }
  function Or(x: Word, y: Word): Word { seq(32, i requires 0 <= i < 32 => x[i] || y[i]) }
  function Xor(x: Word, y: Word): Word { seq(32, i requires 0 <= i < 32 => x[i] != y[i]) }
  function Not(x: Word): Word { seq(32, i requires 0 <= i < 32 => !x[i]) }

  function Left(x: Word, s: nat): Word { seq(32, i requires 0 <= i < 32 => i >= s && x[i - s]) }
  function Right(x: Word, s: nat): Word { seq(32, i requires 0 <= i < 32 => i + s < 32 && x[i + s]) }

  function F(x: Word, y: Word, z: Word): Word { Or(And(x, y), And(Not(x), z)) }
  function G(x: Word, y: Word, z: Word): Word { Or(And(x, z), And(y, Not(z))) }
  function H(x: Word, y: Word, z: Word): Word { Xor(Xor(x, y), z) }
  function I(x: Word, y: Word, z: Word): Word { Xor(y, Or(x, Not(z))) }

  function Mix(i: nat, x: Word, y: Word, z: Word): Word {
    if i < 16 then F(x, y, z) else if i < 32 then G(x, y, z) else if i < 48 then H(x, y, z) else I(x, y, z)
  }

  /** Which word step `i` takes. */
  function Pick(i: nat): (k: nat)
    ensures k < 16
  {
    if i < 16 then i else if i < 32 then (5 * i + 1) % 16 else if i < 48 then (3 * i + 5) % 16 else 7 * i % 16
  }

  /** By how much step `i` rotates. */
  function Shift(i: nat): (s: nat)
    ensures s < 32
  {
    if i < 16 then [7, 12, 17, 22][i % 4]
    else if i < 32 then [5, 9, 14, 20][i % 4]
    else if i < 48 then [4, 11, 16, 23][i % 4]
    else [6, 10, 15, 21][i % 4]
  }

  function Rotate(w: Word, s: nat): Word
    requires s < 32
  {
    Or(Left(w, s), Right(w, 32 - s))
  }

  /** T: 2^32 times the sine of i + 1, without sign and fraction. */
  const T: seq<nat> := [
    0xd76aa478, 0xe8c7b756, 0x242070db, 0xc1bdceee, 0xf57c0faf, 0x4787c62a, 0xa8304613, 0xfd469501,
    0x698098d8, 0x8b44f7af, 0xffff5bb1, 0x895cd7be, 0x6b901122, 0xfd987193, 0xa679438e, 0x49b40821,
    0xf61e2562, 0xc040b340, 0x265e5a51, 0xe9b6c7aa, 0xd62f105d, 0x02441453, 0xd8a1e681, 0xe7d3fbc8,
    0x21e1cde6, 0xc33707d6, 0xf4d50d87, 0x455a14ed, 0xa9e3e905, 0xfcefa3f8, 0x676f02d9, 0x8d2a4c8a,
    0xfffa3942, 0x8771f681, 0x6d9d6122, 0xfde5380c, 0xa4beea44, 0x4bdecfa9, 0xf6bb4b60, 0xbebfbc70,
    0x289b7ec6, 0xeaa127fa, 0xd4ef3085, 0x04881d05, 0xd9d4d039, 0xe6db99e5, 0x1fa27cf8, 0xc4ac5665,
    0xf4292244, 0x432aff97, 0xab9423a7, 0xfc93a039, 0x655b59c3, 0x8f0ccc92, 0xffeff47d, 0x85845dd1,
    0x6fa87e4f, 0xfe2ce6e0, 0xa3014314, 0x4e0811a1, 0xf7537e82, 0xbd3af235, 0x2ad7d2bb, 0xeb86d391
  ]

  lemma TLength()
    ensures |T| == 64
  {
  }

  function Sine(i: nat): Word
    requires i < 64
  {
    TLength();
    OfNat(T[i])
  }

  /** The registers A, B, C, D. */
  datatype Regs = Regs(a: Word, b: Word, c: Word, d: Word)

  /** Register number n % 4. */
  function Reg(r: Regs, n: nat): Word {
    if n % 4 == 0 then r.a else if n % 4 == 1 then r.b else if n % 4 == 2 then r.c else r.d
  }

  function SetReg(r: Regs, n: nat, v: Word): Regs {
    if n % 4 == 0 then r.(a := v) else if n % 4 == 1 then r.(b := v) else if n % 4 == 2 then r.(c := v) else r.(d := v)
  }

  /** The operation [abcd k s i]: a = b + ((a + f(b, c, d) + X[k] + T[i]) <<< s). */
  function Operation(i: nat, a: Word, b: Word, c: Word, d: Word, x: Word): Word
    requires i < 64
  {
    Plus(b, Rotate(Plus(Plus(Plus(a, Mix(i, b, c, d)), x), Sine(i)), Shift(i)))
  }

  /** Step `i` updates A, D, C, B in turn, each in its place. */
  function Step(r: Regs, x: seq<Word>, i: nat): Regs
    requires |x| == 16 && i < 64
  {
    var t := 64 - i;
    SetReg(r, t, Operation(i, Reg(r, t), Reg(r, t + 1), Reg(r, t + 2), Reg(r, t + 3), x[Pick(i)]))
  }

  function Steps(r: Regs, x: seq<Word>, n: nat): Regs
    requires |x| == 16 && n <= 64
  {
    if n == 0 then r else Step(Steps(r, x, n - 1), x, n - 1)
  }

  /** The words of a block, low-order byte first. */
  function WordAt(b: seq<Byte>, i: nat): Word
    requires 4 * i + 4 <= |b|
  {
    OfNat((b[4 * i] as int) + 256 * (b[4 * i + 1] as int) + 65536 * (b[4 * i + 2] as int)
          + 16777216 * (b[4 * i + 3] as int))
  }

  function Words(b: seq<Byte>): (x: seq<Word>)
    requires |b| == 64
    ensures |x| == 16 && forall i :: 0 <= i < 16 ==> x[i] == WordAt(b, i)
  {
    seq(16, i requires 0 <= i < 16 => WordAt(b, i))
  }

  function Block(r: Regs, b: seq<Byte>): Regs
    requires |b| == 64
  {
    var s := Steps(r, Words(b), 64);
    Regs(Plus(r.a, s.a), Plus(r.b, s.b), Plus(r.c, s.c), Plus(r.d, s.d))
  }

  /** All the blocks of a padded message, one after the other. */
  function Blocks(r: Regs, p: seq<Byte>): Regs
    decreases |p|
  {
    if |p| < 64 then r else Blocks(Block(r, p[..64]), p[64..])
  }

  /** Section 3.3. */
  const Initial := Regs(OfNat(0x67452301), OfNat(0xefcdab89), OfNat(0x98badcfe), OfNat(0x10325476))

  /** Section 3.5: from the low-order byte of A to the high-order byte of D. */
  function Output(r: Regs): (s: seq<Byte>)
    ensures |s| == 16
  {
    Octets(r.a) + Octets(r.b) + Octets(r.c) + Octets(r.d)
  }

  function Octets(w: Word): (s: seq<Byte>)
    ensures |s| == 4
  {
    LittleEndian(4, Value(w))
  }

  function Digest(m: seq<Byte>): Regs { Blocks(Initial, Padded(m)) }

  lemma {:induction false} BlocksSnoc(r: Regs, p: seq<Byte>, b: seq<Byte>)
    requires |p| % 64 == 0 && |b| == 64
    ensures Blocks(r, p + b) == Block(Blocks(r, p), b)
    decreases |p|
  {
    hide Block;
    if |p| == 0 {
      assert p + b == b && b[..64] == b;
      assert Blocks(Block(r, b), b[64..]) == Block(r, b);
    } else {
      assert (p + b)[..64] == p[..64] && (p + b)[64..] == p[64..] + b;
      BlocksSnoc(Block(r, p[..64]), p[64..], b);
    }
  }
}
