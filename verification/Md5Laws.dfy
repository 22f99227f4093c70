/** What the definitions of RFC 1321 come to, in bits, bytes and numbers. */
module Md5Laws {
  import opened Md5Rfc

  /** Section 3.4, bit by bit: F and G choose, H is the parity. */
  lemma RoundBits(x: Word, y: Word, z: Word, i: nat)
    requires i < 32
    ensures F(x, y, z)[i] == if x[i] then y[i] else z[i]
    ensures G(x, y, z)[i] == if z[i] then x[i] else y[i]
    ensures H(x, y, z)[i] == ((x[i] != y[i]) != z[i])
    ensures I(x, y, z)[i] == if x[i] || !z[i] then !y[i] else y[i]
  {
  }

  /** Bits shifted out on the left come in on the right. */
  lemma RotateBits(w: Word, s: nat, i: nat)
    requires s < 32 && i < 32
    ensures Rotate(w, s)[i] == w[(i + 32 - s) % 32]
  {
  }

  // ----- words as numbers

  function Bits(n: nat, k: nat): (b: seq<bool>)
    ensures |b| == k
  {
    seq(k, i requires 0 <= i < k => n / Pow2(i) % 2 == 1)
  }

  lemma Twice(k: nat, d: nat)
    ensures (k + 1) * d == k * d + d
  {
  }

  lemma {:induction false} AtLeast(k: nat, d: nat)
    requires k > 0
    ensures k * d >= d
  {
    Twice(k - 1, d);
  }

  lemma Less(a: nat, b: nat, d: nat)
    requires a <= b
    ensures (b - a) * d == b * d - a * d
  {
  }

  lemma Quotient(n: nat, d: nat, q: nat, r: nat)
    requires n == q * d + r && r < d
    ensures n / d == q && n % d == r
  {
    var p := n / d;
    assert n == p * d + n % d;
    if q < p {
      Less(q, p, d);
      AtLeast(p - q, d);
    } else if p < q {
      Less(p, q, d);
      AtLeast(q - p, d);
    }
  }

  lemma Scale(c: nat, q: nat, p: nat, r: nat)
    ensures c * (q * p + r) == q * (c * p) + c * r
  {
    assert c * (q * p) == q * (c * p);
  }

  /** Dividing twice is dividing by the product. */
  lemma Again(n: nat, c: nat, p: nat, d: nat)
    requires c > 0 && p > 0 && d == c * p && d > 0
    ensures n / c / p == n / d && n % d == c * (n / c % p) + n % c
  {
    var h, b := n / c, n % c;
    var q, r := h / p, h % p;
    assert n == c * h + b;
    assert h == q * p + r;
    Together(n, c, p, d, h, b, q, r);
    Quotient(n, d, q, c * r + b);
  }

  lemma Together(n: nat, c: nat, p: nat, d: nat, h: nat, b: nat, q: nat, r: nat)
    requires n == c * h + b && b < c && h == q * p + r && r < p && d == c * p
    ensures n == q * d + (c * r + b) && c * r + b < d
  {
    Scale(c, q, p, r);
    Remains(c, p, r, b);
  }

  lemma Remains(c: nat, p: nat, r: nat, b: nat)
    requires r < p && b < c
    ensures c * r + b < c * p
  {
    Less(r, p, c);
    AtLeast(p - r, c);
    assert c * r == r * c && c * p == p * c;
  }

  lemma {:induction false} BitsValue(n: nat, k: nat)
    ensures Value(Bits(n, k)) == n % Pow2(k)
    decreases k
  {
    if k > 0 {
      var b, rest := Bits(n, k), Bits(n / 2, k - 1);
      BitsValue(n / 2, k - 1);
      forall i | 0 <= i < k - 1
        ensures b[1..][i] == rest[i]
      {
        Again(n, 2, Pow2(i), Pow2(i + 1));
      }
      assert b[1..] == rest;
      Again(n, 2, Pow2(k - 1), Pow2(k));
      assert Pow2(0) == 1 && n / 1 == n;
    }
  }

  lemma Pow2Values()
    ensures Pow2(8) == 0x100 && Pow2(16) == 0x1_0000 && Pow2(24) == 0x100_0000 && Pow2(32) == 0x1_0000_0000
  {
    assert Pow2(8) == 0x100;
    assert Pow2(16) == 0x1_0000;
    assert Pow2(24) == 0x100_0000;
  }

  lemma WordValue(n: nat)
    ensures Value(OfNat(n)) == n % 0x1_0000_0000
  {
    hide Value, Pow2;
    BitsValue(n, 32);
    Pow2Values();
    assert OfNat(n) == Bits(n, 32);
  }

  /** Addition of words is addition modulo 2^32. */
  lemma PlusValue(x: Word, y: Word)
    ensures Value(Plus(x, y)) == (Value(x) + Value(y)) % 0x1_0000_0000
  {
    WordValue(Value(x) + Value(y));
  }

  lemma {:induction false} ValueBound(s: seq<bool>)
    ensures Value(s) < Pow2(|s|)
  {
    if s != [] { ValueBound(s[1..]); }
  }

  /** The low-order byte comes first. */
  lemma OctetsValue(w: Word)
    ensures var o := Octets(w);
            (o[0] as int) + 0x100 * (o[1] as int) + 0x1_0000 * (o[2] as int) + 0x100_0000 * (o[3] as int) == Value(w)
  {
    hide Value, Pow2, LittleEndian;
    ValueBound(w);
    Pow2Values();
    Four(Value(w));
    FromFour(Value(w));
  }

  lemma FromFour(n: nat)
    ensures n % 256 + 0x100 * (n / 256 % 256) + 0x1_0000 * (n / 65536 % 256) + 0x100_0000 * (n / 16777216) == n
  {
    var a, b := n / 256, n / 65536;
    assert a / 256 == b && b / 256 == n / 16777216;
    assert n == n % 256 + 256 * a && a == a % 256 + 256 * b && b == b % 256 + 256 * (b / 256);
  }

  lemma Four(n: nat)
    requires n < 0x1_0000_0000
    ensures LittleEndian(4, n) == [n % 256, n / 256 % 256, n / 65536 % 256, n / 16777216]
  {
    var a, b, c := n / 256, n / 256 / 256, n / 256 / 256 / 256;
    assert LittleEndian(0, c / 256) == [];
    assert LittleEndian(1, c) == [c % 256] + [];
    assert LittleEndian(2, b) == [b % 256] + LittleEndian(1, c);
    assert LittleEndian(3, a) == [a % 256] + LittleEndian(2, b);
    assert LittleEndian(4, n) == [n % 256] + LittleEndian(3, a);
  }

  /** Section 3.3: the registers as bytes, low-order first. */
  lemma InitialBytes()
    ensures Output(Initial) == [0x01, 0x23, 0x45, 0x67, 0x89, 0xab, 0xcd, 0xef,
                                0xfe, 0xdc, 0xba, 0x98, 0x76, 0x54, 0x32, 0x10]
  {
    hide LittleEndian, Value, OfNat;
    WordValue(0x67452301);
    WordValue(0xefcdab89);
    WordValue(0x98badcfe);
    WordValue(0x10325476);
    Four(0x67452301);
    Four(0xefcdab89);
    Four(0x98badcfe);
    Four(0x10325476);
  }

  // ----- padding

  /** The number that bytes spell, low-order byte first. */
  function FromLittle(s: seq<Byte>): nat { if s == [] then 0 else s[0] as int + 256 * FromLittle(s[1..]) }

  lemma {:induction false} LittleBack(k: nat, n: nat)
    ensures FromLittle(LittleEndian(k, n)) == n % Pow256(k)
    decreases k
  {
    if k > 0 {
      LittleBack(k - 1, n / 256);
      assert LittleEndian(k, n)[1..] == LittleEndian(k - 1, n / 256);
      Again(n, 256, Pow256(k - 1), Pow256(k));
    }
  }

  function Pow256(k: nat): (p: nat)
    ensures p > 0
  {
    if k == 0 then 1 else 256 * Pow256(k - 1)
  }

  /** Sections 3.1 and 3.2: the message, one 1 bit, as few zeros as bring it to a multiple
      of 64 bytes, and the number of bits modulo 2^64 in the last eight bytes. */
  lemma PaddedMeans(m: seq<Byte>)
    ensures var p, n := Padded(m), |Padded(m)|;
            && n % 64 == 0 && |m| + 9 <= n < |m| + 9 + 64
            && p[..|m|] == m && p[|m|] == 0x80 && (forall i :: |m| < i < n - 8 ==> p[i] == 0)
            && FromLittle(p[n - 8..]) == 8 * |m| % 0x1_0000_0000_0000_0000
  {
    hide FromLittle, Pow256, LittleEndian;
    var z, l := ZeroCount(|m|), LittleEndian(8, 8 * |m| % TWO64);
    var p := Padded(m);
    Lengths(|m|, z);
    assert |p| == |m| + 1 + z + 8;
    assert p[..|m|] == m && p[|m| + 1..|m| + 1 + z] == Zeros(z) && p[|m| + 1 + z..] == l;
    forall i | |m| < i < |p| - 8
      ensures p[i] == 0
    {
      assert p[i] == p[|m| + 1..|m| + 1 + z][i - |m| - 1];
    }
    LittleBack(8, 8 * |m| % TWO64);
    EightBytes(8 * |m|);
  }

  lemma Lengths(n: nat, z: nat)
    requires z < 64 && (n + 1 + z) % 64 == 56
    ensures (n + 1 + z + 8) % 64 == 0
  {
  }

  lemma EightBytes(n: nat)
    ensures n % TWO64 % Pow256(8) == n % TWO64
  {
    assert Pow256(4) == 0x1_0000_0000;
    assert Pow256(8) == TWO64;
  }
}
