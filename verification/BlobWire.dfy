/** blob.h and blobmsg.h: the bytes of a message, the serializer that defines what
    a tree of attributes looks like, and the accessors that read it back. */
module BlobWire {

  type Byte = x: int | 0 <= x < 256

  const LEN_LIMIT := 0x100_0000
  const NAME_LIMIT := 0x1_0000
  const TYPE_ARRAY := 1
  const TYPE_TABLE := 2
  const TYPE_STRING := 3

  function Pad4(n: int): int { (n + 3) / 4 * 4 }

  /** Bytes 1 to 3 of the header word: the length field, big endian. */
  function Len24(n: nat): (r: seq<Byte>)
    requires n < LEN_LIMIT
    ensures |r| == 3
  {
    [n / 65536, n / 256 % 256, n % 256]
  }

  function Be16(n: nat): (r: seq<Byte>)
    requires n < NAME_LIMIT
    ensures |r| == 2
  {
    [n / 256, n % 256]
  }

  function Zeros(n: nat): (z: seq<Byte>)
    ensures |z| == n && forall i :: 0 <= i < n ==> z[i] == 0
  {
    seq(n, _ => 0)
  }

  // ----- the tree and its bytes

  /** An attribute of a message: a value of some type, or a table or an array. */
  datatype Msg =
    | Field(typ: int, name: seq<Byte>, value: seq<Byte>)
    | Nested(isArray: bool, name: seq<Byte>, kids: seq<Msg>)

  /** `blobmsg_hdrlen`. */
  function HdrLen(namelen: nat): nat { Pad4(2 + namelen + 1) }

  lemma HdrAligned(n: nat)
    ensures HdrLen(n) % 4 == 0 && 3 + n <= HdrLen(n) <= 6 + n
  {
  }

  lemma Pad4Range(n: nat)
    ensures n <= Pad4(n) < n + 4 && Pad4(n) % 4 == 0
  {
  }

  lemma Pad4Same(n: nat)
    requires n % 4 == 0
    ensures Pad4(n) == n
  {
  }

  /** The header in front of the data: the length of the name, the name, and zeros
      up to the next multiple of four. */
  function NameHdr(name: seq<Byte>): (h: seq<Byte>)
    requires |name| < NAME_LIMIT
    ensures |h| == HdrLen(|name|)
  {
    Be16(|name|) + name + Zeros(HdrLen(|name|) - 2 - |name|)
  }

  /** A NUL-terminated name that the 16-bit length can hold. */
  predicate GoodName(name: seq<Byte>) { |name| < NAME_LIMIT && forall i :: 0 <= i < |name| ==> name[i] != 0 }

  predicate GoodField(typ: int, name: seq<Byte>) {
    0 <= typ < 128 && GoodName(name)
  }

  ghost predicate Good(m: Msg) {
    match m
    case Field(typ, name, value) => GoodField(typ, name)
    case Nested(isArray, name, kids) => GoodName(name) && forall k :: k in kids ==> Good(k)
  }

  ghost predicate AllGood(ms: seq<Msg>) { forall m :: m in ms ==> Good(m) }

  function Tag(isArray: bool): Byte { 128 + if isArray then TYPE_ARRAY else TYPE_TABLE }

  /** The padded size of an attribute. */
  function Size(m: Msg): nat
    decreases m, 0
  {
    match m
    case Field(typ, name, value) => Pad4(4 + HdrLen(|name|) + |value|)
    case Nested(isArray, name, kids) => 4 + HdrLen(|name|) + SizeAll(kids)
  }

  function SizeAll(ms: seq<Msg>): nat
    decreases ms, 1
  {
    if ms == [] then 0 else Size(ms[0]) + SizeAll(ms[1..])
  }

  /** The bytes of an attribute, with its padding. */
  ghost function Ser(m: Msg): (s: seq<Byte>)
    requires Good(m) && Size(m) < LEN_LIMIT
    ensures |s| == Size(m)
    decreases m, 0
  {
    match m
    case Field(typ, name, value) =>
      var len := 4 + HdrLen(|name|) + |value|;
      [128 + typ] + Len24(len) + NameHdr(name) + value + Zeros(Pad4(len) - len)
    case Nested(isArray, name, kids) =>
      [Tag(isArray)] + Len24(Size(m)) + NameHdr(name) + SerAll(kids)
  }

  ghost function SerAll(ms: seq<Msg>): (s: seq<Byte>)
    requires AllGood(ms) && SizeAll(ms) < LEN_LIMIT
    ensures |s| == SizeAll(ms)
    decreases ms, 1
  {
    if ms == [] then [] else Ser(ms[0]) + SerAll(ms[1..])
  }

  /** The bytes of an attribute by value: the extended bit and the type, the length in
      three bytes and that of the name in two, big endian, the name, zeros up to a
      multiple of four, the data, and zeros again. */
  lemma SerBytes(m: Msg)
    requires Good(m) && Size(m) < LEN_LIMIT
    ensures var s, n := Ser(m), |m.name|;
            var d := 4 + (n + 6) / 4 * 4;
            && d <= |s| && |s| % 4 == 0
            && s[0] == (if m.Field? then 128 + m.typ else if m.isArray then 129 else 130)
            && (s[1] as int) * 65536 + (s[2] as int) * 256 + s[3] as int == (if m.Field? then d + |m.value| else |s|)
            && (s[4] as int) * 256 + s[5] as int == n && s[6..6 + n] == m.name
            && (forall i :: 6 + n <= i < d ==> s[i] == 0)
            && (m.Nested? ==> SizeAll(m.kids) == |s| - d && s[d..] == SerAll(m.kids))
            && (m.Field? ==>
                  && d + |m.value| <= |s| < d + |m.value| + 4 && s[d..d + |m.value|] == m.value
                  && forall i :: d + |m.value| <= i < |s| ==> s[i] == 0)
  {
    hide SerAll, Len24, NameHdr, Zeros, Be16;
    var s := Ser(m);
    HdrAligned(|m.name|);
    SizeAligned(m);
    if m.Field? {
      var len := 4 + HdrLen(|m.name|) + |m.value|;
      var pad := Zeros(Pad4(len) - len);
      Pad4Range(len);
      Group([128 + m.typ] + Len24(len) + NameHdr(m.name), m.value, pad);
      Layout(s, 128 + m.typ, len, m.name, m.value + pad);
      ValueThenPad(s, 4 + HdrLen(|m.name|), m.value, pad);
    } else {
      Layout(s, Tag(m.isArray), Size(m), m.name, SerAll(m.kids));
    }
  }

  lemma Group(a: seq<Byte>, b: seq<Byte>, c: seq<Byte>)
    ensures a + b + c == a + (b + c)
  {
  }

  lemma ValueThenPad(s: seq<Byte>, d: nat, value: seq<Byte>, pad: seq<Byte>)
    requires d <= |s| && s[d..] == value + pad && forall i :: 0 <= i < |pad| ==> pad[i] == 0
    ensures d + |value| <= |s| && s[d..d + |value|] == value && forall i :: d + |value| <= i < |s| ==> s[i] == 0
  {
    assert s[d..][..|value|] == value;
    forall i | d + |value| <= i < |s|
      ensures s[i] == 0
    {
      assert s[i] == s[d..][i - d] == pad[i - d - |value|];
    }
  }

  lemma Layout(s: seq<Byte>, tag: Byte, len: nat, name: seq<Byte>, data: seq<Byte>)
    requires |name| < NAME_LIMIT && len < LEN_LIMIT
    requires s == [tag] + Len24(len) + NameHdr(name) + data
    ensures var n, d := |name|, 4 + HdrLen(|name|);
            && d <= |s| && s[0] == tag
            && (s[1] as int) * 65536 + (s[2] as int) * 256 + s[3] as int == len
            && (s[4] as int) * 256 + s[5] as int == n && s[6..6 + n] == name
            && (forall i :: 6 + n <= i < d ==> s[i] == 0) && s[d..] == data
  {
    var l, h, n := Len24(len), NameHdr(name), |name|;
    assert s[1] == l[0] && s[2] == l[1] && s[3] == l[2];
    assert s[4..4 + |h|] == h;
    assert forall i :: 4 <= i < 4 + |h| ==> s[i] == h[i - 4];
    var b, z := Be16(n), Zeros(HdrLen(n) - 2 - n);
    assert h == b + name + z;
    assert s[4] == b[0] && s[5] == b[1];
    assert s[6..6 + n] == name;
    forall i | 6 + n <= i < 4 + |h|
      ensures s[i] == 0
    {
      assert s[i] == h[i - 4] == z[i - 6 - n];
    }
  }

  lemma {:induction false} SizeAligned(m: Msg)
    ensures Size(m) % 4 == 0 && 8 <= Size(m)
    decreases m, 0
  {
    if m.Nested? { SizeAllAligned(m.kids); }
  }

  lemma {:induction false} SizeAllAligned(ms: seq<Msg>)
    ensures SizeAll(ms) % 4 == 0
    decreases ms, 1
  {
    if ms != [] {
      SizeAligned(ms[0]);
      SizeAllAligned(ms[1..]);
    }
  }

  lemma SerFirst(ms: seq<Msg>)
    requires ms != [] && AllGood(ms) && SizeAll(ms) < LEN_LIMIT
    ensures Good(ms[0]) && AllGood(ms[1..]) && SizeAll(ms) == Size(ms[0]) + SizeAll(ms[1..])
    ensures SerAll(ms) == Ser(ms[0]) + SerAll(ms[1..])
  {
    hide Ser, Size, Good;
  }

  lemma {:induction false} SizeSnoc(ms: seq<Msg>, m: Msg)
    requires AllGood(ms) && Good(m)
    ensures AllGood(ms + [m]) && SizeAll(ms + [m]) == SizeAll(ms) + Size(m)
    decreases |ms|
  {
    hide Size, Good;
    if ms == [] {
      assert ms + [m] == [m] && [m][1..] == [];
      assert SizeAll([m]) == Size(m) + SizeAll([m][1..]);
    } else {
      assert (ms + [m])[1..] == ms[1..] + [m];
      SizeSnoc(ms[1..], m);
    }
  }

  lemma {:induction false} SerSnoc(ms: seq<Msg>, m: Msg)
    requires AllGood(ms) && Good(m) && SizeAll(ms) + Size(m) < LEN_LIMIT
    ensures AllGood(ms + [m]) && SizeAll(ms + [m]) == SizeAll(ms) + Size(m)
    ensures SerAll(ms + [m]) == SerAll(ms) + Ser(m)
    decreases |ms|
  {
    hide Ser, Size, Good, SizeAll, SerAll, AllGood;
    SizeSnoc(ms, m);
    SerFirst(ms + [m]);
    if ms == [] {
      assert ms + [m] == [m] && [m][1..] == [];
      SerNone();
    } else {
      assert (ms + [m])[1..] == ms[1..] + [m];
      SerFirst(ms);
      SerSnoc(ms[1..], m);
    }
  }

  lemma SerNone()
    ensures AllGood([]) && SizeAll([]) == 0 && SerAll([]) == []
  {
  }

  // ----- the accessors

  /** `blob_raw_len`, `blob_id`, `blob_is_extended`, `blob_pad_len` of the attribute at `o`. */
  function RawLen(b: seq<Byte>, o: nat): nat
    requires o + 4 <= |b|
  {
    (b[o + 1] as int) * 65536 + (b[o + 2] as int) * 256 + b[o + 3] as int
  }

  function Id(b: seq<Byte>, o: nat): nat
    requires o + 4 <= |b|
  {
    b[o] % 128
  }

  function Extended(b: seq<Byte>, o: nat): bool
    requires o + 4 <= |b|
  {
    b[o] >= 128
  }

  function PadLen(b: seq<Byte>, o: nat): nat
    requires o + 4 <= |b|
  {
    Pad4(RawLen(b, o))
  }

  lemma Len24Back(b: seq<Byte>, o: nat, n: nat)
    requires n < LEN_LIMIT && o + 4 <= |b| && b[o + 1..o + 4] == Len24(n)
    ensures RawLen(b, o) == n
  {
    var l := Len24(n);
    assert b[o + 1] == l[0] && b[o + 2] == l[1] && b[o + 3] == l[2];
  }

  /** `be16_to_cpu` of the name length of the attribute at the front of `a`. */
  function NameLen(a: seq<Byte>): nat { if 6 <= |a| then (a[4] as int) * 256 + a[5] as int else 0 }

  /** `blobmsg_data` and `blobmsg_data_len`: where the data of the attribute at the
      front of `a` are. */
  function DataOff(a: seq<Byte>): nat
    requires 4 <= |a|
  {
    4 + if Extended(a, 0) then HdrLen(NameLen(a)) else 0
  }

  function Data(a: seq<Byte>): seq<Byte>
    requires 4 <= |a|
  {
    if DataOff(a) <= RawLen(a, 0) <= |a| then a[DataOff(a)..RawLen(a, 0)] else []
  }

  /** `blobmsg_name`, cut at the length the header gives. */
  function Name(a: seq<Byte>): seq<Byte> { if 6 + NameLen(a) <= |a| then a[6..6 + NameLen(a)] else [] }

  /** Walks the attributes of `p` as `blobmsg_for_each_attr` does, and those of the
      tables and arrays in it, and reads each with the accessors. */
  function ParseAll(p: seq<Byte>): seq<Msg>
    decreases |p|, 1
  {
    if 4 <= |p| && PadLen(p, 0) <= |p| && PadLen(p, 0) >= 4 then
      [Parse(p[..PadLen(p, 0)])] + ParseAll(p[PadLen(p, 0)..])
    else
      []
  }

  function Parse(a: seq<Byte>): Msg
    requires 4 <= |a|
    decreases |a|, 0
  {
    if Id(a, 0) == TYPE_ARRAY || Id(a, 0) == TYPE_TABLE then
      Nested(Id(a, 0) == TYPE_ARRAY, Name(a), ParseAll(Data(a)))
    else
      Field(Id(a, 0), Name(a), Data(a))
  }

  // ----- reading back

  /** What the accessors see of an attribute with the given parts. */
  lemma Accessors(tag: Byte, len: nat, name: seq<Byte>, data: seq<Byte>, pad: seq<Byte>)
    requires 128 <= tag && |name| < NAME_LIMIT && len == 4 + HdrLen(|name|) + |data| < LEN_LIMIT
    ensures var a := [tag] + Len24(len) + NameHdr(name) + data + pad;
            && RawLen(a, 0) == len && Id(a, 0) == tag - 128 && Extended(a, 0)
            && Name(a) == name && Data(a) == data
  {
    var h := NameHdr(name);
    var a := [tag] + Len24(len) + h + data + pad;
    var z := Zeros(HdrLen(|name|) - 2 - |name|);
    assert h[0] == |name| / 256 && h[1] == |name| % 256;
    assert a[4] == h[0] && a[5] == h[1];
    assert a[1..4] == Len24(len);
    Len24Back(a, 0, len);
    assert NameLen(a) == |name|;
    assert h[2..2 + |name|] == name;
    assert a[4..4 + |h|] == h;
    assert a[6..6 + |name|] == h[2..2 + |name|];
    assert a[4 + |h|..len] == data;
  }

  /** What a reader sees in a message: a value that was given the type of a table or an
      array, as blobmsg_add_blob does, is read as one. */
  function Norm(m: Msg): Msg
    decreases m, 0
  {
    match m
    case Field(typ, name, value) =>
      if typ == TYPE_ARRAY || typ == TYPE_TABLE then Nested(typ == TYPE_ARRAY, name, ParseAll(value)) else m
    case Nested(isArray, name, kids) => Nested(isArray, name, NormAll(kids))
  }

  function NormAll(ms: seq<Msg>): seq<Msg>
    decreases ms, 1
  {
    if ms == [] then [] else [Norm(ms[0])] + NormAll(ms[1..])
  }

  /** Tables and arrays were opened and closed, never added as values. */
  ghost predicate Typed(m: Msg) {
    match m
    case Field(typ, _, _) => typ != TYPE_ARRAY && typ != TYPE_TABLE
    case Nested(_, _, kids) => forall k :: k in kids ==> Typed(k)
  }

  lemma {:induction false} NormSame(m: Msg)
    requires Typed(m)
    ensures Norm(m) == m
    decreases m, 0
  {
    if m.Nested? { NormAllSame(m.kids); }
  }

  lemma {:induction false} NormAllSame(ms: seq<Msg>)
    requires forall m :: m in ms ==> Typed(m)
    ensures NormAll(ms) == ms
    decreases ms, 1
  {
    hide Typed;
    if ms != [] {
      NormSame(ms[0]);
      NormAllSame(ms[1..]);
    }
  }

  lemma ParseField(typ: int, name: seq<Byte>, value: seq<Byte>)
    requires GoodField(typ, name) && Size(Field(typ, name, value)) < LEN_LIMIT
    ensures var s := Ser(Field(typ, name, value));
            4 <= |s| && PadLen(s, 0) == |s| && Parse(s) == Norm(Field(typ, name, value))
  {
    hide NameHdr, HdrLen, Name, Data, RawLen, Len24, ParseAll;
    var len := 4 + HdrLen(|name|) + |value|;
    Accessors(128 + typ, len, name, value, Zeros(Pad4(len) - len));
  }

  /** An attribute with a multiple of four bytes needs no padding. */
  lemma ParseNested(isArray: bool, name: seq<Byte>, data: seq<Byte>)
    requires GoodName(name) && |data| % 4 == 0 && 4 + HdrLen(|name|) + |data| < LEN_LIMIT
    ensures var s := [Tag(isArray)] + Len24(4 + HdrLen(|name|) + |data|) + NameHdr(name) + data;
            4 <= |s| && PadLen(s, 0) == |s| && Parse(s) == Nested(isArray, name, ParseAll(data))
  {
    hide NameHdr, HdrLen, Name, Data, RawLen, Len24, ParseAll, Pad4;
    var len := 4 + HdrLen(|name|) + |data|;
    HdrAligned(|name|);
    Pad4Same(len);
    Accessors(Tag(isArray), len, name, data, []);
    var s := [Tag(isArray)] + Len24(len) + NameHdr(name) + data;
    assert s + [] == s;
  }

  lemma {:induction false} ParseSer(m: Msg)
    requires Good(m) && Size(m) < LEN_LIMIT
    ensures 4 <= |Ser(m)| && PadLen(Ser(m), 0) == |Ser(m)| && Parse(Ser(m)) == Norm(m)
    decreases m, 0
  {
    hide NameHdr, Name, Data, RawLen, Len24, PadLen, Parse;
    match m
    case Field(typ, name, value) =>
      ParseField(typ, name, value);
    case Nested(isArray, name, kids) =>
      SizeAllAligned(kids);
      ParseNested(isArray, name, SerAll(kids));
      ParseSerAll(kids);
  }

  /** Walking the bytes of a list of attributes returns the same types, names and
      values in the same order. */
  lemma {:induction false} ParseSerAll(ms: seq<Msg>)
    requires AllGood(ms) && SizeAll(ms) < LEN_LIMIT
    ensures ParseAll(SerAll(ms)) == NormAll(ms)
    decreases ms, 1
  {
    if ms != [] {
      var s, r := Ser(ms[0]), SerAll(ms[1..]);
      ParseSer(ms[0]);
      ParseSerAll(ms[1..]);
      HeaderFirst(s, r);
      assert (s + r)[..|s|] == s && (s + r)[|s|..] == r;
    }
  }

  /** A copy of a table, added as a value with the bytes of that, is read like the table. */
  lemma CopyReads(isArray: bool, name: seq<Byte>, kids: seq<Msg>)
    requires AllGood(kids) && SizeAll(kids) < LEN_LIMIT
    ensures Norm(Field(if isArray then TYPE_ARRAY else TYPE_TABLE, name, SerAll(kids))) ==
            Norm(Nested(isArray, name, kids))
  {
    hide ParseAll, SerAll;
    ParseSerAll(kids);
  }

  lemma HeaderFirst(s: seq<Byte>, r: seq<Byte>)
    requires 4 <= |s|
    ensures PadLen(s + r, 0) == PadLen(s, 0)
  {
  }

  // ----- numbers

  function Pow256(k: nat): nat { if k == 0 then 1 else 256 * Pow256(k - 1) }

  /** `cpu_to_be16`, `cpu_to_be32`, `cpu_to_be64`: the bytes that blobmsg_add_u16 and
      the like store. */
  function Be(k: nat, v: nat): (s: seq<Byte>)
    ensures |s| == k
  {
    if k == 0 then [] else Be(k - 1, v / 256) + [v % 256]
  }

  function FromBe(s: seq<Byte>): nat { if s == [] then 0 else 256 * FromBe(s[..|s| - 1]) + s[|s| - 1] as int }

  /** `blobmsg_get_u64` puts the number together from two 32-bit halves. */
  function GetU64(s: seq<Byte>): nat
    requires |s| == 8
  {
    FromBe(s[..4]) * 0x1_0000_0000 + FromBe(s[4..])
  }

  lemma {:induction false} FromBeBack(k: nat, v: nat)
    requires v < Pow256(k)
    ensures FromBe(Be(k, v)) == v
  {
    if k > 0 {
      FromBeBack(k - 1, v / 256);
      assert Be(k, v)[..k - 1] == Be(k - 1, v / 256);
    }
  }

  lemma {:induction false} FromBeCat(a: seq<Byte>, b: seq<Byte>)
    ensures FromBe(a + b) == FromBe(a) * Pow256(|b|) + FromBe(b)
  {
    if b == [] {
      assert a + b == a;
    } else {
      var n := |b| - 1;
      FromBeCat(a, b[..n]);
      assert (a + b)[..|a + b| - 1] == a + b[..n];
      assert 256 * (FromBe(a) * Pow256(n)) == FromBe(a) * (256 * Pow256(n));
    }
  }

  /** The 64-bit getter returns the number that was added. */
  lemma U64Back(v: nat)
    requires v < Pow256(8)
    ensures GetU64(Be(8, v)) == v
  {
    var s := Be(8, v);
    assert Pow256(4) == 0x1_0000_0000;
    FromBeCat(s[..4], s[4..]);
    assert s == s[..4] + s[4..];
    FromBeBack(8, v);
  }

  /** The type blobmsg_add_u8 and the like give to a number of `k` bytes. */
  function NumberType(k: nat): nat { if k == 8 then 4 else if k == 4 then 5 else if k == 2 then 6 else 7 }

  /** The getter for that size. */
  function GetNumber(k: nat, s: seq<Byte>): nat { if k == 8 && |s| == 8 then GetU64(s) else FromBe(s) }

  /** The most significant byte comes first. */
  lemma BeBytes(k: nat, v: nat)
    requires (k == 1 || k == 2 || k == 4 || k == 8) && v < Pow256(k)
    ensures var s := Be(k, v);
            && (k == 1 ==> s[0] == v) && (k == 2 ==> (s[0] as int) * 0x100 + s[1] as int == v)
            && (k == 4 ==> (s[0] as int) * 0x100_0000 + (s[1] as int) * 0x1_0000 + (s[2] as int) * 0x100
                           + s[3] as int == v)
            && (k == 8 ==> (s[0] as int) * 0x100_0000_0000_0000 + (s[1] as int) * 0x1_0000_0000_0000
                           + (s[2] as int) * 0x100_0000_0000 + (s[3] as int) * 0x1_0000_0000
                           + (s[4] as int) * 0x100_0000 + (s[5] as int) * 0x1_0000 + (s[6] as int) * 0x100
                           + s[7] as int == v)
  {
    hide Be, FromBe, Pow256;
    FromBeBack(k, v);
    var s := Be(k, v);
    Digit(s);
    if k > 1 { Digit(s[..k - 1]); }
    if k > 2 {
      Digit(s[..k - 2]);
      Digit(s[..k - 3]);
    }
    if k > 4 {
      Digit(s[..4]);
      Digit(s[..3]);
      Digit(s[..2]);
      Digit(s[..1]);
    }
    Digit([]);
    Take(s);
  }

  lemma Digit(s: seq<Byte>)
    ensures s == [] ==> FromBe(s) == 0
    ensures s != [] ==> FromBe(s) == 256 * FromBe(s[..|s| - 1]) + s[|s| - 1] as int
  {
  }

  lemma Take(s: seq<Byte>)
    ensures forall i, j :: 0 <= j <= i <= |s| ==> s[..i][..j] == s[..j]
    ensures s[..0] == []
  {
  }

  /** A number that was added is read back. */
  lemma NumberBack(k: nat, name: seq<Byte>, v: nat)
    requires GoodName(name) && k <= 8 && v < Pow256(k) && Size(Field(NumberType(k), name, Be(k, v))) < LEN_LIMIT
    ensures var m := Parse(Ser(Field(NumberType(k), name, Be(k, v))));
            m.Field? && m.typ == NumberType(k) && m.name == name && GetNumber(k, m.value) == v
  {
    hide Be, FromBe, GetU64, Pow256;
    ParseSer(Field(NumberType(k), name, Be(k, v)));
    FromBeBack(k, v);
    if k == 8 { U64Back(v); }
  }
}
