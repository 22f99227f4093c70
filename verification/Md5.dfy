/** md5.c: hashing a message that arrives in pieces. */
module Md5 {
  import opened Md5Rfc

  function FF(b: Word, c: Word, d: Word): Word { Xor(d, And(b, Xor(c, d))) }
  function FG(b: Word, c: Word, d: Word): Word { FF(d, b, c) }
  function FH(b: Word, c: Word, d: Word): Word { Xor(Xor(b, c), d) }
  function FI(b: Word, c: Word, d: Word): Word { Xor(c, Or(b, Not(d))) }

  /** The function of round `i / 16`. */
  function Fun(i: nat, b: Word, c: Word, d: Word): Word {
    if i < 16 then FF(b, c, d) else if i < 32 then FG(b, c, d) else if i < 48 then FH(b, c, d) else FI(b, c, d)
  }

  const C_array: seq<nat> := [
    0xd76aa478, 0xe8c7b756, 0x242070db, 0xc1bdceee, 0xf57c0faf, 0x4787c62a, 0xa8304613, 0xfd469501,
    0x698098d8, 0x8b44f7af, 0xffff5bb1, 0x895cd7be, 0x6b901122, 0xfd987193, 0xa679438e, 0x49b40821,
    0xf61e2562, 0xc040b340, 0x265e5a51, 0xe9b6c7aa, 0xd62f105d, 0x02441453, 0xd8a1e681, 0xe7d3fbc8,
    0x21e1cde6, 0xc33707d6, 0xf4d50d87, 0x455a14ed, 0xa9e3e905, 0xfcefa3f8, 0x676f02d9, 0x8d2a4c8a,
    0xfffa3942, 0x8771f681, 0x6d9d6122, 0xfde5380c, 0xa4beea44, 0x4bdecfa9, 0xf6bb4b60, 0xbebfbc70,
    0x289b7ec6, 0xeaa127fa, 0xd4ef3085, 0x04881d05, 0xd9d4d039, 0xe6db99e5, 0x1fa27cf8, 0xc4ac5665,
    0xf4292244, 0x432aff97, 0xab9423a7, 0xfc93a039, 0x655b59c3, 0x8f0ccc92, 0xffeff47d, 0x85845dd1,
    0x6fa87e4f, 0xfe2ce6e0, 0xa3014314, 0x4e0811a1, 0xf7537e82, 0xbd3af235, 0x2ad7d2bb, 0xeb86d391
  ]

  /** The constants are the table of the RFC. */
  lemma SameTable()
    ensures C_array == T && |C_array| == 64
  {
    TLength();
  }

  /** The rows of P_array, one for each round. */
  const P1: seq<nat> := [0, 1, 2, 3, 4, 5, 6, 7, 8, 9, 10, 11, 12, 13, 14, 15]
  const P2: seq<nat> := [1, 6, 11, 0, 5, 10, 15, 4, 9, 14, 3, 8, 13, 2, 7, 12]
  const P3: seq<nat> := [5, 8, 11, 14, 1, 4, 7, 10, 13, 0, 3, 6, 9, 12, 15, 2]
  const P4: seq<nat> := [0, 7, 14, 5, 12, 3, 10, 1, 8, 15, 6, 13, 4, 11, 2, 9]

  function P_array(i: nat): nat
    requires i < 64
  {
    if i < 16 then P1[i] else if i < 32 then P2[i - 16] else if i < 48 then P3[i - 32] else P4[i - 48]
  }

  const S_array: seq<nat> := [7, 12, 17, 22, 5, 9, 14, 20, 4, 11, 16, 23, 6, 10, 15, 21]

  /** The rewritten F, and G in terms of it, are those of the RFC. */
  lemma SameF(x: Word, y: Word, z: Word)
    ensures FF(x, y, z) == F(x, y, z)
  {
    forall i | 0 <= i < 32
      ensures FF(x, y, z)[i] == F(x, y, z)[i]
    {
    }
  }

  lemma SameG(x: Word, y: Word, z: Word)
    ensures FG(x, y, z) == G(x, y, z)
  {
    SameF(z, x, y);
    forall i | 0 <= i < 32
      ensures F(z, x, y)[i] == G(x, y, z)[i]
    {
    }
  }

  lemma SameFun(i: nat, x: Word, y: Word, z: Word)
    ensures Fun(i, x, y, z) == Mix(i, x, y, z)
  {
    hide FF, FG, F, G;
    SameF(x, y, z);
    SameG(x, y, z);
  }

  lemma RowP2(i: nat)
    requires 16 <= i < 32
    ensures P2[i - 16] == (5 * i + 1) % 16
  {
    assert P2[0] == 1 && P2[1] == 6 && P2[2] == 11 && P2[3] == 0;
    assert P2[4] == 5 && P2[5] == 10 && P2[6] == 15 && P2[7] == 4;
    assert P2[8] == 9 && P2[9] == 14 && P2[10] == 3 && P2[11] == 8;
    assert P2[12] == 13 && P2[13] == 2 && P2[14] == 7 && P2[15] == 12;
  }

  lemma RowP3(i: nat)
    requires 32 <= i < 48
    ensures P3[i - 32] == (3 * i + 5) % 16
  {
    assert P3[0] == 5 && P3[1] == 8 && P3[2] == 11 && P3[3] == 14;
    assert P3[4] == 1 && P3[5] == 4 && P3[6] == 7 && P3[7] == 10;
    assert P3[8] == 13 && P3[9] == 0 && P3[10] == 3 && P3[11] == 6;
    assert P3[12] == 9 && P3[13] == 12 && P3[14] == 15 && P3[15] == 2;
  }

  lemma RowP4(i: nat)
    requires 48 <= i < 64
    ensures P4[i - 48] == 7 * i % 16
  {
    assert P4[0] == 0 && P4[1] == 7 && P4[2] == 14 && P4[3] == 5;
    assert P4[4] == 12 && P4[5] == 3 && P4[6] == 10 && P4[7] == 1;
    assert P4[8] == 8 && P4[9] == 15 && P4[10] == 6 && P4[11] == 13;
    assert P4[12] == 4 && P4[13] == 11 && P4[14] == 2 && P4[15] == 9;
  }

  lemma SamePick(i: nat)
    requires i < 64
    ensures P_array(i) == Pick(i)
  {
    if i < 16 {
      assert P1 == seq(16, k => k);
    } else if i < 32 {
      RowP2(i);
    } else if i < 48 {
      RowP3(i);
    } else {
      RowP4(i);
    }
  }

  lemma SameShift(i: nat)
    requires i < 64
    ensures S_array[4 * (i / 16) + i % 16 % 4] == Shift(i)
  {
  }

  lemma PlusCommutes(x: Word, y: Word)
    ensures Plus(x, y) == Plus(y, x)
  {
  }

  /** The registers of the code after `n` steps: those of the RFC, rotated. */
  ghost predicate Rotated(r: Regs, n: nat, a: Word, b: Word, c: Word, d: Word)
    requires n <= 64
  {
    a == Reg(r, 64 - n) && b == Reg(r, 65 - n) && c == Reg(r, 66 - n) && d == Reg(r, 67 - n)
  }

  /** `temp` of one step. */
  function Temp(i: nat, a: Word, b: Word, c: Word, d: Word, x: Word): Word
    requires i < 64
  {
    SameShift(i);
    SameTable();
    Plus(Rotate(Plus(Plus(Plus(a, Fun(i, b, c, d)), x), OfNat(C_array[i])), S_array[4 * (i / 16) + i % 16 % 4]), b)
  }

  lemma SameTemp(i: nat, a: Word, b: Word, c: Word, d: Word, x: Word)
    requires i < 64
    ensures Temp(i, a, b, c, d, x) == Operation(i, a, b, c, d, x)
  {
    hide Fun, Mix, Rotate, OfNat, Shift, Plus;
    SameTable();
    SameFun(i, b, c, d);
    SameShift(i);
    PlusCommutes(b, Rotate(Plus(Plus(Plus(a, Mix(i, b, c, d)), x), Sine(i)), Shift(i)));
  }

  lemma RegAgain(r: Regs, n: nat)
    ensures Reg(r, n + 4) == Reg(r, n)
  {
  }

  lemma RegSet(r: Regs, n: nat, v: Word, m: nat)
    ensures Reg(SetReg(r, n, v), m) == if m % 4 == n % 4 then v else Reg(r, m)
  {
  }

  lemma RotateOn(r: Regs, x: seq<Word>, n: nat, a: Word, b: Word, c: Word, d: Word)
    requires |x| == 16 && n < 64 && Rotated(r, n, a, b, c, d)
    ensures Rotated(Step(r, x, n), n + 1, d, Temp(n, a, b, c, d, x[Pick(n)]), b, c)
  {
    hide Temp, Operation, Pick, Reg, SetReg;
    var v := Temp(n, a, b, c, d, x[Pick(n)]);
    SameTemp(n, a, b, c, d, x[Pick(n)]);
    RegAgain(r, 63 - n);
    RegSet(r, 64 - n, v, 63 - n);
    RegSet(r, 64 - n, v, 64 - n);
    RegSet(r, 64 - n, v, 65 - n);
    RegSet(r, 64 - n, v, 66 - n);
  }

  lemma StepsNext(r: Regs, x: seq<Word>, n: nat)
    requires |x| == 16 && n < 64
    ensures Steps(r, x, n + 1) == Step(Steps(r, x, n), x, n)
  {
    hide Step;
  }

  lemma StepsNone(r: Regs, x: seq<Word>)
    requires |x| == 16
    ensures Steps(r, x, 0) == r
  {
    hide Step;
  }

  /** At the start and after the last step, every register is in its place. */
  lemma RotatedEnds(r: Regs, s: Regs)
    ensures Rotated(s, 0, r.a, r.b, r.c, r.d) <==> r == s
    ensures Rotated(s, 64, r.a, r.b, r.c, r.d) <==> r == s
  {
    hide Reg;
    FourRegs(s);
    RegLater(s, 0);
    RegLater(s, 1);
    RegLater(s, 2);
    RegLater(s, 3);
  }

  lemma FourRegs(r: Regs)
    ensures Reg(r, 0) == r.a && Reg(r, 1) == r.b && Reg(r, 2) == r.c && Reg(r, 3) == r.d
  {
  }

  lemma RegLater(r: Regs, n: nat)
    requires n < 4
    ensures Reg(r, 64 + n) == Reg(r, n)
  {
  }

  /** One of the four loops of md5_hash_block. */
  method Round(q: nat, r: Regs, x: seq<Word>, ghost r0: Regs) returns (r': Regs)
    requires q < 4 && |x| == 16
    requires Rotated(Steps(r0, x, 16 * q), 16 * q, r.a, r.b, r.c, r.d)
    ensures Rotated(Steps(r0, x, 16 * q + 16), 16 * q + 16, r'.a, r'.b, r'.c, r'.d)
  {
    hide Temp, Rotated, Step, Steps, Pick, P_array, Reg;
    var A, B, C, D := r.a, r.b, r.c, r.d;
    var i := 0;
    while i < 16
      invariant i <= 16
      invariant Rotated(Steps(r0, x, 16 * q + i), 16 * q + i, A, B, C, D)
    {
      SamePick(16 * q + i);
      RotateOn(Steps(r0, x, 16 * q + i), x, 16 * q + i, A, B, C, D);
      StepsNext(r0, x, 16 * q + i);
      var temp := Temp(16 * q + i, A, B, C, D, x[P_array(16 * q + i)]);
      A := D;
      D := C;
      C := B;
      B := temp;
      i := i + 1;
    }
    r' := Regs(A, B, C, D);
  }

  /** `md5_hash_block`: the four rounds of section 3.4 of RFC 1321. */
  method HashBlock(r: Regs, block: seq<Byte>) returns (r': Regs)
    requires |block| == 64
    ensures r' == Block(r, block)
  {
    hide Steps, Plus, Words, Rotated;
    var x := Words(block);
    RotatedEnds(r, Steps(r, x, 0));
    StepsNone(r, x);
    var s := Round(0, r, x, r);
    s := Round(1, s, x, r);
    s := Round(2, s, x, r);
    s := Round(3, s, x, r);
    RotatedEnds(s, Steps(r, x, 64));
    r' := Regs(Plus(r.a, s.a), Plus(r.b, s.b), Plus(r.c, s.c), Plus(r.d, s.d));
  }

  class Context {
    var regs: Regs
    var total: nat
    var buflen: nat
    const buffer: array<Byte>
    /** The message so far. */
    ghost var msg: seq<Byte>

    /** The full blocks of the message have been compressed, the rest is buffered. */
    ghost predicate Valid()
      reads this, buffer
    {
      && buffer.Length == 128 && buflen == |msg| % 64 && total == |msg| % TWO64
      && regs == Blocks(Initial, msg[..|msg| - buflen])
      && buffer[..buflen] == msg[|msg| - buflen..]
    }

    /** `md5_begin`. */
    constructor ()
      ensures Valid() && msg == [] && fresh(buffer)
    {
      regs, total, buflen, msg := Initial, 0, 0, [];
      buffer := new Byte[128];
    }

    /** `md5_hash`. */
    method Hash(data: seq<Byte>)
      requires Valid()
      modifies this, buffer
      ensures Valid() && msg == old(msg) + data
    {
      hide Fed, Blocks;
      TotalAdds(|msg|, |data|);
      total := (total + |data|) % TWO64;
      assert Fed(msg) by { AlsoFed(); }
      var pos := 0;
      while pos < |data|
        invariant pos <= |data| && Fed(msg) && msg == old(msg) + data[..pos]
        invariant total == (|old(msg)| + |data|) % TWO64
      {
        FedLess();
        var i := 64 - buflen;
        if i > |data| - pos {
          i := |data| - pos;
        }
        Feed(data[pos..pos + i]);
        pos := pos + i;
      }
      assert data[..pos] == data;
      FedFull();
    }

    lemma AlsoFed()
      requires buffer.Length == 128 && buflen == |msg| % 64
      requires regs == Blocks(Initial, msg[..|msg| - buflen]) && buffer[..buflen] == msg[|msg| - buflen..]
      ensures Fed(msg)
    {
    }

    lemma FedLess()
      requires Fed(msg)
      ensures buflen < 64 && buffer.Length == 128
    {
    }

    lemma FedFull()
      requires Fed(msg) && total == |msg| % TWO64
      ensures Valid()
    {
      hide Blocks;
    }

    /** What Valid() says apart from the total. */
    ghost predicate Fed(m: seq<Byte>)
      reads this, buffer
    {
      && buffer.Length == 128 && buflen == |m| % 64
      && regs == Blocks(Initial, m[..|m| - buflen])
      && buffer[..buflen] == m[|m| - buflen..]
    }

    /** One turn of the loop of md5_hash: fills the buffer, and empties it when full. */
    method Feed(piece: seq<Byte>)
      requires Fed(msg) && 0 < |piece| <= 64 - buflen
      modifies `regs, `buflen, `msg, buffer
      ensures Fed(msg) && msg == old(msg) + piece
    {
      hide Blocks, Block;
      ghost var m, n, b0 := msg, buflen, buffer[..];
      Grown(m, n, piece);
      Copy(buffer, buflen, piece);
      Filled(b0, buffer[..], n, piece);
      buflen := buflen + |piece|;
      msg := msg + piece;
      assert buffer[..buflen] == buffer[..][..buflen] && buffer[..n] == buffer[..][..n];
      if buflen == 64 {
        BlocksSnoc(Initial, m[..|m| - n], buffer[..64]);
        regs := HashBlock(regs, buffer[..64]);
        buflen := 0;
      }
    }

    /** `md5_end`: the sixteen bytes of the digest of the whole message, however it was cut into pieces. */
    method End() returns (out: seq<Byte>)
      requires Valid()
      modifies this, buffer
      ensures out == Output(Digest(old(msg)))
    {
      hide Blocks, Block, Padded, LittleEndian, Zeros, Digest, ZeroCount, Octets;
      ghost var m, rest := msg, buffer[..buflen];
      Fill();
      var off := if buflen > 56 then 64 else 0;
      total := total * 8 % TWO64;
      TotalBits(|m|);
      ghost var b0 := buffer[..];
      Copy(buffer, off + 56, LittleEndian(8, total));
      ghost var b := buffer[..];
      FinalDigest(m, rest, off, LittleEndian(8, total), b0, b);
      Last(off);
      out := Octets(regs.a) + Octets(regs.b) + Octets(regs.c) + Octets(regs.d);
    }

    /** One or two last blocks. */
    method Last(off: nat)
      requires buffer.Length == 128 && (off == 0 || off == 64)
      modifies `regs
      ensures var b := buffer[..];
              regs == Block(if off == 0 then old(regs) else Block(old(regs), b[..64]), b[off..off + 64])
    {
      hide Block;
      ghost var b := buffer[..];
      assert b[..64] == buffer[..64] && b[off..off + 64] == buffer[off..off + 64];
      if off != 0 {
        regs := HashBlock(regs, buffer[..64]);
      }
      regs := HashBlock(regs, buffer[off..off + 64]);
    }

    /** The 1 bit, and zeros up to the end of the buffer. */
    method Fill()
      requires buffer.Length == 128 && buflen < 64
      modifies `buflen, buffer
      ensures buflen == old(buflen) + 1
      ensures buffer[..] == old(buffer[..buflen]) + [0x80] + Zeros(127 - old(buflen))
    {
      hide Zeros;
      Copy(buffer, buflen, [0x80]);
      ghost var b := buffer[..];
      assert b[..buflen + 1] == old(buffer[..buflen]) + [0x80];
      buflen := buflen + 1;
      Copy(buffer, buflen, Zeros(128 - buflen));
    }
  }

  lemma Filled(b0: seq<Byte>, b: seq<Byte>, n: nat, piece: seq<Byte>)
    requires n + |piece| <= |b0| && b == b0[..n] + piece + b0[n + |piece|..]
    ensures |b| == |b0| && b[..n + |piece|] == b0[..n] + piece
  {
  }

  /** A longer message: its full blocks, and what is left over. */
  lemma Grown(m: seq<Byte>, n: nat, piece: seq<Byte>)
    requires n == |m| % 64 && |piece| <= 64 - n
    ensures var m', k := m + piece, n + |piece|;
            && m'[..|m'| - k] == m[..|m| - n] && m'[|m'| - k..] == m[|m| - n..] + piece
            && |m'| % 64 == (if k == 64 then 0 else k) && m'[..|m'|] == m[..|m| - n] + (m[|m| - n..] + piece)
            && m'[|m'|..] == []
  {
  }

  lemma TotalAdds(n: nat, k: nat)
    ensures (n % TWO64 + k) % TWO64 == (n + k) % TWO64
  {
    var q := n / TWO64;
    assert n + k == (n % TWO64 + k) + TWO64 * q;
    ModPlus(n % TWO64 + k, q);
  }

  lemma TotalBits(n: nat)
    ensures n % TWO64 * 8 % TWO64 == 8 * n % TWO64
  {
    var q := n / TWO64;
    assert 8 * n == 8 * (n % TWO64) + TWO64 * (8 * q);
    ModPlus(8 * (n % TWO64), 8 * q);
  }

  lemma {:induction false} ModPlus(a: nat, k: nat)
    ensures (a + TWO64 * k) % TWO64 == a % TWO64
  {
    if k > 0 {
      ModPlus(a, k - 1);
      var b := a + TWO64 * (k - 1);
      assert a + TWO64 * k == b + TWO64;
    }
  }

  /** The buffer before the last blocks ends the padded message. */
  lemma FinalBytes(m: seq<Byte>, rest: seq<Byte>, off: nat, len: seq<Byte>, b0: seq<Byte>, b: seq<Byte>)
    requires |rest| == |m| % 64 && rest == m[|m| - |rest|..] && off == (if |rest| + 1 > 56 then 64 else 0)
    requires b0 == rest + [0x80] + Zeros(127 - |rest|)
    requires len == LittleEndian(8, 8 * |m| % TWO64) && b == b0[..off + 56] + len + b0[off + 64..]
    ensures Padded(m) == m[..|m| - |rest|] + b[..off + 64]
  {
    hide LittleEndian, Zeros, ZeroCount;
    var z, full := ZeroCount(|m|), m[..|m| - |rest|];
    ZerosFit(|m|, |rest|, off, z);
    ZerosPrefix(rest + [0x80], 127 - |rest|, z);
    assert b[..off + 64] == b0[..off + 56] + len;
    assert m == full + rest;
    Reassociate(full, rest, [0x80], Zeros(z), len);
  }

  lemma ZerosFit(n: nat, rest: nat, off: nat, z: nat)
    requires rest == n % 64 && off == (if rest + 1 > 56 then 64 else 0) && z == ZeroCount(n)
    ensures rest + 1 + z == off + 56 && z <= 127 - rest
  {
  }

  lemma ZerosPrefix(a: seq<Byte>, n: nat, z: nat)
    requires z <= n
    ensures (a + Zeros(n))[..|a| + z] == a + Zeros(z)
  {
  }

  lemma Reassociate(full: seq<Byte>, r: seq<Byte>, x: seq<Byte>, y: seq<Byte>, z: seq<Byte>)
    ensures full + r + x + y + z == full + (r + x + y + z)
  {
  }

  lemma WholeBlocks(n: nat, rest: nat)
    requires rest == n % 64
    ensures rest <= n && (n - rest) % 64 == 0
  {
  }

  lemma FinalDigest(m: seq<Byte>, rest: seq<Byte>, off: nat, len: seq<Byte>, b0: seq<Byte>, b: seq<Byte>)
    requires |rest| == |m| % 64 && rest == m[|m| - |rest|..] && off == (if |rest| + 1 > 56 then 64 else 0)
    requires b0 == rest + [0x80] + Zeros(127 - |rest|)
    requires len == LittleEndian(8, 8 * |m| % TWO64) && b == b0[..off + 56] + len + b0[off + 64..]
    ensures var r := Blocks(Initial, m[..|m| - |rest|]);
            Digest(m) == Block(if off == 0 then r else Block(r, b[..64]), b[off..off + 64])
  {
    hide Blocks, Block, Padded, LittleEndian, Zeros, Digest, ZeroCount;
    WholeBlocks(|m|, |rest|);
    assert |b| == 128;
    FinalBytes(m, rest, off, len, b0, b);
    FinalBlocks(m, m[..|m| - |rest|], off, b);
  }

  lemma FinalBlocks(m: seq<Byte>, full: seq<Byte>, off: nat, b: seq<Byte>)
    requires |full| % 64 == 0 && (off == 0 || off == 64) && |b| == 128 && Padded(m) == full + b[..off + 64]
    ensures var r := Blocks(Initial, full);
            Digest(m) == if off == 0 then Block(r, b[off..off + 64]) else Block(Block(r, b[..64]), b[off..off + 64])
  {
    hide Blocks, Block, Padded;
    if off == 0 {
      BlocksSnoc(Initial, full, b[..64]);
      assert b[0..64] == b[..64];
    } else {
      assert b[64..128] == b[64..] && b[..128] == b[..64] + b[64..];
      TwoBlocks(full, b[..64], b[64..]);
    }
  }

  lemma TwoBlocks(full: seq<Byte>, x: seq<Byte>, y: seq<Byte>)
    requires |full| % 64 == 0 && |x| == 64 && |y| == 64
    ensures Blocks(Initial, full + (x + y)) == Block(Block(Blocks(Initial, full), x), y)
  {
    hide Blocks, Block;
    BlocksSnoc(Initial, full, x);
    BlocksSnoc(Initial, full + x, y);
    assert full + (x + y) == (full + x) + y;
  }

  /** memcpy into the buffer. */
  method Copy(b: array<Byte>, at: nat, data: seq<Byte>)
    requires at + |data| <= b.Length
    modifies b
    ensures b[..] == old(b[..])[..at] + data + old(b[..])[at + |data|..]
  {
    var i := 0;
    ghost var was := b[..];
    while i < |data|
      invariant i <= |data| && |b[..]| == |was|
      invariant b[..] == was[..at] + data[..i] + was[at + i..]
    {
      b[at + i] := data[i];
      i := i + 1;
    }
    assert data[..i] == data;
  }
}
