/** blob.c and blobmsg.c: building a message in a buffer that grows, patching the
    lengths of the open attributes in place. */
module Blob {
  import opened BlobWire

  const COOKIE := 0x0123_4567

  /** An attribute that is still open: the root, or a table or array, and the
      attributes in it so far. */
  datatype Frame =
    | Root(id: int, kids: seq<Msg>)
    | Open(isArray: bool, name: seq<Byte>, kids: seq<Msg>)

  ghost predicate GoodFrame(f: Frame) {
    && AllGood(f.kids)
    && match f
       case Root(id, kids) => 0 <= id < 128
       case Open(isArray, name, kids) => GoodName(name)
  }

  ghost function HeadSize(f: Frame): nat { if f.Root? then 0 else HdrLen(|f.name|) }

  ghost function BodySize(f: Frame): nat { HeadSize(f) + SizeAll(f.kids) }

  ghost function Body(f: Frame): (b: seq<Byte>)
    requires GoodFrame(f) && BodySize(f) < LEN_LIMIT
    ensures |b| == BodySize(f)
  {
    (if f.Root? then [] else NameHdr(f.name)) + SerAll(f.kids)
  }

  /** The bytes of an open attribute; the length field of one that has another open
      attribute in it already counts the header of that. */
  ghost function Chunk(f: Frame, extra: nat): (c: seq<Byte>)
    requires GoodFrame(f) && 4 + BodySize(f) + extra < LEN_LIMIT
    ensures |c| == 4 + BodySize(f)
  {
    Labelled(f, 4 + BodySize(f) + extra)
  }

  ghost function Labelled(f: Frame, len: nat): (c: seq<Byte>)
    requires GoodFrame(f) && BodySize(f) < LEN_LIMIT && len < LEN_LIMIT
    ensures |c| == 4 + BodySize(f)
  {
    [if f.Root? then f.id else Tag(f.isArray)] + Len24(len) + Body(f)
  }

  ghost predicate AllGoodFrames(fs: seq<Frame>) { forall f :: f in fs ==> GoodFrame(f) }

  /** The root is the outermost open attribute, and nothing else is a root. */
  ghost predicate Nesting(outer: seq<Frame>, top: Frame) {
    && AllGoodFrames(outer) && GoodFrame(top)
    && (top.Root? <==> outer == []) && (outer != [] ==> outer[0].Root?)
    && (forall i :: 0 < i < |outer| ==> outer[i].Open?)
  }

  lemma NestingParts(outer: seq<Frame>, top: Frame)
    requires Nesting(outer, top)
    ensures AllGoodFrames(outer) && GoodFrame(top) && (outer != [] ==> top.Open?)
  {
  }

  lemma NestingDown(outer: seq<Frame>, top: Frame, f: Frame)
    requires Nesting(outer, top) && f.Open? && f.kids == [] && GoodName(f.name)
    ensures Nesting(outer + [top], f)
  {
  }

  lemma {:induction false} NestingMore(outer: seq<Frame>, top: Frame, m: Msg)
    requires Nesting(outer, top) && Good(m)
    ensures Nesting(outer, top.(kids := top.kids + [m]))
  {
  }

  ghost function SpineSize(fs: seq<Frame>): nat { if fs == [] then 0 else 4 + BodySize(fs[0]) + SpineSize(fs[1..]) }

  ghost function Spine(fs: seq<Frame>): (s: seq<Byte>)
    requires AllGoodFrames(fs) && SpineSize(fs) + 4 < LEN_LIMIT
    ensures |s| == SpineSize(fs)
  {
    if fs == [] then [] else Chunk(fs[0], 4) + Spine(fs[1..])
  }

  /** Where the innermost open attribute ends. */
  ghost function Offset(outer: seq<Frame>, f: Frame): nat { SpineSize(outer) + 4 + BodySize(f) }

  /** The memory up to there, when the innermost attribute says it is `len` long. */
  ghost predicate Laid(m: seq<Byte>, outer: seq<Frame>, f: Frame, len: nat) {
    && AllGoodFrames(outer) && GoodFrame(f) && Offset(outer, f) < LEN_LIMIT && len < LEN_LIMIT
    && Offset(outer, f) <= |m| && m[..Offset(outer, f)] == Spine(outer) + Labelled(f, len)
  }

  lemma {:induction false} SpineSnoc(fs: seq<Frame>, f: Frame)
    requires AllGoodFrames(fs) && GoodFrame(f) && SpineSize(fs) + 8 + BodySize(f) < LEN_LIMIT
    ensures AllGoodFrames(fs + [f])
    ensures SpineSize(fs + [f]) == SpineSize(fs) + 4 + BodySize(f)
    ensures Spine(fs + [f]) == Spine(fs) + Chunk(f, 4)
  {
    hide Chunk, GoodFrame, BodySize;
    if fs == [] {
      assert fs + [f] == [f] && [f][1..] == [];
      assert Spine([f]) == Chunk(f, 4) + Spine([f][1..]);
    } else {
      assert (fs + [f])[1..] == fs[1..] + [f];
      SpineSnoc(fs[1..], f);
      assert Spine(fs + [f]) == Chunk(fs[0], 4) + Spine(fs[1..] + [f]);
    }
  }

  lemma FrameAligned(f: Frame)
    ensures BodySize(f) % 4 == 0
  {
    SizeAllAligned(f.kids);
    if f.Open? { HdrAligned(|f.name|); }
  }

  lemma {:induction false} SpineAligned(fs: seq<Frame>)
    ensures SpineSize(fs) % 4 == 0
  {
    if fs != [] {
      FrameAligned(fs[0]);
      SpineAligned(fs[1..]);
    }
  }

  /** `id_len |= BLOB_ATTR_EXTENDED` in the first byte. */
  function SetExtended(b: Byte): Byte { if b < 128 then b + 128 else b }

  // ----- memory

  /** memcpy of `bytes` to the offset `o`. */
  function Put(m: seq<Byte>, o: nat, bytes: seq<Byte>): (r: seq<Byte>)
    requires o + |bytes| <= |m|
    ensures |r| == |m|
  {
    m[..o] + bytes + m[o + |bytes|..]
  }

  lemma PutHit(m: seq<Byte>, o: nat, bytes: seq<Byte>)
    requires o + |bytes| <= |m|
    ensures Put(m, o, bytes)[o..o + |bytes|] == bytes
  {
  }

  lemma PutMiss(m: seq<Byte>, o: nat, bytes: seq<Byte>, a: nat, b: nat)
    requires o + |bytes| <= |m| && a <= b <= |m| && (b <= o || o + |bytes| <= a)
    ensures Put(m, o, bytes)[a..b] == m[a..b]
  {
  }

  lemma SameTail(m: seq<Byte>, r: seq<Byte>, d: nat, a: nat, b: nat)
    requires d <= a <= b <= |m| && d <= |r| && r[d..] == m[d..]
    ensures b <= |r| && r[a..b] == m[a..b]
  {
    assert |r[d..]| == |m[d..]|;
    SubSlice(r, d, a, b);
    SubSlice(m, d, a, b);
  }

  lemma SubSlice(m: seq<Byte>, d: nat, a: nat, b: nat)
    requires d <= a <= b <= |m|
    ensures m[a..b] == m[d..][a - d..b - d]
  {
  }

  lemma GrownSame(m: seq<Byte>, r: seq<Byte>, a: nat, b: nat)
    requires a <= b <= |m| <= |r| && m == r[..|m|]
    ensures r[..a] == m[..a] && r[a..b] == m[a..b]
  {
    var x := r[..|m|];
    assert x[..a] == r[..a] && x[a..b] == r[a..b];
  }

  lemma Cat(m: seq<Byte>, a: nat, b: nat, c: nat)
    requires a <= b <= c <= |m|
    ensures m[a..c] == m[a..b] + m[b..c]
  {
  }

  lemma RootBytes(id: nat)
    requires id < 128
    ensures Nesting([], Root(id, [])) && SpineSize([]) == 0 && BodySize(Root(id, [])) == 0
    ensures Spine([]) + Chunk(Root(id, []), 0) == [id] + Len24(4) == [id, 0, 0, 4]
  {
    assert Body(Root(id, [])) == [];
  }

  class BlobBuf {
    /** The memory, `buflen` bytes, and the offset of the innermost open attribute. */
    var buf: seq<Byte>
    var head: nat
    /** The open attributes: those around the innermost one, and that. */
    ghost var outer: seq<Frame>
    ghost var top: Frame

    ghost function End(): nat
      reads this
    {
      SpineSize(outer) + 4 + BodySize(top)
    }

    ghost predicate Framed()
      reads this
    {
      && Nesting(outer, top)
      && |buf| % 256 == 0 && End() <= |buf| && End() < LEN_LIMIT && head == SpineSize(outer)
    }

    /** The memory up to the end of the innermost open attribute is what the
        serializer says, and that end is aligned. */
    ghost predicate Valid()
      reads this
    {
      && Framed()
      && buf[..End()] == Spine(outer) + Chunk(top, 0)
    }

    /** `blob_buffer_grow` through `blob_buf_grow`: the memory may move, offsets stay. */
    method Grow(minlen: nat)
      modifies `buf
      ensures |old(buf)| + minlen <= |buf| && old(buf) == buf[..|old(buf)|]
      ensures |old(buf)| % 256 == 0 ==> |buf| % 256 == 0
      ensures |buf| <= |old(buf)| + minlen + 256 && forall i :: |old(buf)| <= i < |buf| ==> buf[i] == 0
    {
      var delta := (minlen / 256 + 1) * 256;
      buf := buf + Zeros(delta);
    }

    /** `blob_set_raw_len` of the attribute at `o`. */
    method SetRawLen(o: nat, len: nat)
      requires o + 4 <= |buf|
      modifies `buf
      ensures buf == Put(old(buf), o + 1, Len24(len % LEN_LIMIT))
    {
      buf := Put(buf, o + 1, Len24(len % LEN_LIMIT));
    }

    /** `blob_add`: the header of a new attribute at `pos`, and the zeros that pad it.
        The test for growing looks at the unpadded size only. */
    method BlobAdd(pos: nat, id: nat, payload: nat)
      requires pos % 4 == 0 && pos <= |buf| && |buf| % 256 == 0 && id < 128 && 4 + payload < LEN_LIMIT
      modifies `buf
      ensures pos + Pad4(4 + payload) <= |buf| && |buf| % 256 == 0
      ensures buf[..pos] == old(buf)[..pos] && (pos + 4 + payload <= |old(buf)| ==> |buf| == |old(buf)|)
      ensures buf[pos..pos + 4] == [id] + Len24(4 + payload)
      ensures buf[pos + 4 + payload..pos + Pad4(4 + payload)] == Zeros(Pad4(4 + payload) - 4 - payload)
    {
      hide Put, Len24, Zeros, Pad4;
      var required := pos + 4 + payload - |buf|;
      if required > 0 {
        Grow(required);
      }
      Fits(pos, payload, |buf|);
      assert buf[..pos] == old(buf)[..pos];
      var h: seq<Byte> := [id] + Len24((4 + payload) % LEN_LIMIT);
      var z := Zeros(Pad4(4 + payload) - 4 - payload);
      PutMiss(buf, pos, h, 0, pos);
      PutHit(buf, pos, h);
      buf := Put(buf, pos, h);
      PutMiss(buf, pos + 4 + payload, z, 0, pos);
      PutMiss(buf, pos + 4 + payload, z, pos, pos + 4);
      PutHit(buf, pos + 4 + payload, z);
      buf := Put(buf, pos + 4 + payload, z);
    }

    /** `blob_buf_init`. */
    method Init(id: nat)
      requires |buf| % 256 == 0 && id < 128
      modifies this
      ensures Valid() && outer == [] && top == Root(id, []) && head == 0
      ensures End() == 4 <= |buf| && buf[..4] == [id, 0, 0, 4]
    {
      hide Nesting, Spine, SpineSize, BodySize, Chunk, Len24, Pad4;
      head := 0;
      BlobAdd(0, id, 0);
      outer, top := [], Root(id, []);
      assert Pad4(4) == 4 by { Pad4Range(4); }
      RootBytes(id);
      assert buf[..4] == buf[0..4];
    }

    /** `blob_new`: an attribute behind the innermost open one, whose length field
        grows by the padded size. */
    method BlobNew(id: nat, payload: nat) returns (attr: nat)
      requires Valid() && id < 128 && End() + Pad4(4 + payload) < LEN_LIMIT
      modifies `buf
      ensures Framed() && attr == End() && attr + Pad4(4 + payload) <= |buf|
      ensures buf[..attr] == Spine(outer) + Labelled(top, 4 + BodySize(top) + Pad4(4 + payload))
      ensures buf[attr..attr + 4] == [id] + Len24(4 + payload)
      ensures buf[attr + 4 + payload..attr + Pad4(4 + payload)] == Zeros(Pad4(4 + payload) - 4 - payload)
    {
      hide Put, Spine, SpineSize, BodySize, Body, Labelled, RawLen, GoodFrame, Len24, Zeros, AllGoodFrames, Nesting,
           Pad4, PadLen;
      Pad4Range(4 + payload);
      Ready();
      attr := head + PadLen(buf, head);
      BlobAdd(attr, id, payload);
      NewedLen(buf, outer, top, attr, id, payload);
      SetRawLen(head, PadLen(buf, head) + PadLen(buf, attr));
    }

    /** `blob_next` of the innermost open attribute is the aligned end of the message. */
    lemma Ready()
      requires Valid()
      ensures head + PadLen(buf, head) == End() && End() % 4 == 0 && AllGoodFrames(outer) && GoodFrame(top)
    {
      hide Spine, SpineSize, BodySize, Body, Labelled, RawLen, GoodFrame, AllGoodFrames, Nesting, Pad4;
      NestingParts(outer, top);
      FrameAligned(top);
      SpineAligned(outer);
      LabelLen(buf, Spine(outer), top, 4 + BodySize(top));
      Pad4Same(4 + BodySize(top));
    }

    /** `blobmsg_new`: an attribute with the extended bit and a name in front of the
        data; `data` is where those go. */
    method BlobmsgNew(typ: nat, name: seq<Byte>, payload: nat) returns (attr: nat, data: nat)
      requires Valid() && typ < 128 && GoodName(name)
      requires End() + Pad4(4 + HdrLen(|name|) + payload) < LEN_LIMIT
      modifies `buf
      ensures Framed() && attr == End() && data == attr + 4 + HdrLen(|name|)
      ensures attr + Pad4(4 + HdrLen(|name|) + payload) <= |buf|
      ensures buf[..attr] == Spine(outer) + Labelled(top, 4 + BodySize(top) + Pad4(4 + HdrLen(|name|) + payload))
      ensures buf[attr..data] == [128 + typ] + Len24(4 + HdrLen(|name|) + payload) + NameHdr(name)
      ensures ZeroPad(buf, data + payload, attr + Pad4(4 + HdrLen(|name|) + payload))
    {
      hide Put, Spine, SpineSize, BodySize, Body, Labelled, RawLen, GoodFrame, Len24, Zeros, NameHdr, HdrLen,
           WithHeader, Pad4, Nesting, AllGoodFrames;
      HdrAligned(|name|);
      Pad4Range(4 + HdrLen(|name|) + payload);
      attr := BlobNew(typ, HdrLen(|name|) + payload);
      ghost var m := buf;
      HeaderWritten(m, attr, typ, 4 + HdrLen(|name|) + payload, name);
      data := WriteHeader(attr, typ, name);
      SameTail(m, buf, data, data + payload, attr + Pad4(4 + HdrLen(|name|) + payload));
    }

    /** The extended bit, the name and the zeros behind it. */
    method WriteHeader(attr: nat, ghost typ: nat, name: seq<Byte>) returns (data: nat)
      requires GoodName(name) && attr + 4 + HdrLen(|name|) <= |buf| && buf[attr] == typ < 128
      modifies `buf
      ensures data == attr + 4 + HdrLen(|name|) && buf == WithHeader(old(buf), attr, typ, name)
    {
      hide Put, HdrLen, Be16, Zeros;
      HdrAligned(|name|);
      buf := Put(buf, attr, [SetExtended(buf[attr])]);
      buf := Put(buf, attr + 4, Be16(|name|));
      buf := Put(buf, attr + 6, name + [0]);
      data := attr + 4 + HdrLen(|name|);
      if attr + 6 + |name| < data {
        buf := Put(buf, attr + 6 + |name|, Zeros(data - (attr + 6 + |name|)));
      }
    }

    /** `blobmsg_add_field`. */
    method AddField(typ: nat, name: seq<Byte>, value: seq<Byte>)
      requires Valid() && GoodField(typ, name)
      requires End() + Size(Field(typ, name, value)) < LEN_LIMIT
      modifies `buf, `top
      ensures Valid() && outer == old(outer) && top == old(top).(kids := old(top).kids + [Field(typ, name, value)])
      ensures End() == old(End()) + Size(Field(typ, name, value))
      ensures buf[old(End())..End()] == Ser(Field(typ, name, value))
    {
      hide Put, Spine, SpineSize, BodySize, Body, Labelled, RawLen, GoodFrame, Len24, Zeros, NameHdr, HdrLen, Be16,
           Ser, SerAll, GoodName, Pad4;
      var attr, data := BlobmsgNew(typ, name, |value|);
      ghost var m, f := buf, Field(typ, name, value);
      HdrAligned(|name|);
      if |value| > 0 {
        buf := Put(buf, data, value);
      }
      ValueWritten(m, attr, typ, name, value);
      assert buf == if |value| > 0 then Put(m, data, value) else m;
      Appended(buf, outer, top, f);
      top := top.(kids := top.kids + [f]);
      assert End() == attr + Size(f);
    }

    /** `blobmsg_add_u8`, `blobmsg_add_u16`, `blobmsg_add_u32` and `blobmsg_add_u64`. */
    method AddNumber(k: nat, name: seq<Byte>, v: nat)
      requires Valid() && GoodName(name) && (k == 1 || k == 2 || k == 4 || k == 8) && v < Pow256(k)
      requires End() + Size(Field(NumberType(k), name, Be(k, v))) < LEN_LIMIT
      modifies `buf, `top
      ensures Valid() && top == old(top).(kids := old(top).kids + [Field(NumberType(k), name, Be(k, v))])
      ensures var e := old(End());
              && e + 4 + HdrLen(|name|) + k <= |buf| && buf[e + 4 + HdrLen(|name|)..][..k] == Be(k, v)
              && buf[e] == if k == 8 then 132 else if k == 4 then 133 else if k == 2 then 134 else 135
    {
      hide Be, Pow256, Ser, Size, GoodName, Nesting, Spine, SpineSize, BodySize, Chunk, HdrLen;
      ghost var e := End();
      AddField(NumberType(k), name, Be(k, v));
      NumberAt(buf, e, k, name, v);
    }

    /** `blobmsg_open_nested`: the cookie is the offset of the attribute around the
        new one. The length of that counts only the header of the new one so far. */
    method OpenNested(name: seq<Byte>, isArray: bool) returns (cookie: nat)
      requires Valid() && GoodName(name) && End() + 4 + HdrLen(|name|) < LEN_LIMIT
      modifies this
      ensures Valid() && outer == old(outer) + [old(top)] && top == Open(isArray, name, [])
      ensures cookie == old(head) + COOKIE && head == old(End()) && head < |buf|
      ensures buf[head] == if isArray then 129 else 130
    {
      hide Put, Spine, SpineSize, BodySize, Body, Labelled, RawLen, GoodFrame, Len24, Zeros, NameHdr, HdrLen, Be16,
           GoodName, AllGoodFrames, Nesting, Pad4;
      NestingParts(outer, top);
      NestingDown(outer, top, Open(isArray, name, []));
      cookie := head + COOKIE;
      HdrAligned(|name|);
      Pad4Same(4 + HdrLen(|name|));
      assert 4 + HdrLen(|name|) + 0 == 4 + HdrLen(|name|);
      var attr, data := BlobmsgNew(if isArray then TYPE_ARRAY else TYPE_TABLE, name, 0);
      Opening(buf, outer, top, isArray, name);
      SetRawLen(head, PadLen(buf, head) - HdrLen(|name|));
      head := attr;
      outer, top := outer + [top], Open(isArray, name, []);
      OpenTag(buf, outer, top);
    }

    /** `blobmsg_close_table`, `blobmsg_close_array` (`blob_nest_end`): the attribute
        the cookie denotes takes in the innermost open one, wherever the memory now is. */
    method CloseNested(cookie: nat)
      requires Valid() && outer != [] && cookie == SpineSize(outer[..|outer| - 1]) + COOKIE
      modifies this
      ensures Valid() && outer == old(outer[..|outer| - 1])
      ensures var p := old(outer[|outer| - 1]);
              top == p.(kids := p.kids + [Nested(old(top).isArray, old(top).name, old(top).kids)])
      ensures var a := Nested(old(top).isArray, old(top).name, old(top).kids);
              && Good(a) && Size(a) < LEN_LIMIT && End() == old(head) + Size(a) && buf[old(head)..End()] == Ser(a)
    {
      hide Put, Spine, SpineSize, BodySize, Body, Labelled, Chunk, RawLen, GoodFrame, Len24, Ser, Size;
      ghost var os, p, a := outer[..|outer| - 1], outer[|outer| - 1], Nested(top.isArray, top.name, top.kids);
      var attr := cookie - COOKIE;
      Closing(buf, os, p, outer, top);
      SetRawLen(attr, PadLen(buf, attr) + RawLen(buf, head) - 4);
      head := attr;
      outer, top := os, p.(kids := p.kids + [a]);
      NestedSize(old(outer), old(top), os, p, a);
      LastAttr(buf, os, p, a);
    }

    /** An unfinished string behind the innermost open attribute: its header is there,
        and its length counts no data yet. */
    ghost predicate Pending(name: seq<Byte>)
      reads this
    {
      && Valid() && GoodName(name) && End() + 4 + HdrLen(|name|) < LEN_LIMIT
      && Headed(buf, End(), TYPE_STRING, name)
    }

    /** `blobmsg_alloc_string_buffer`. */
    method AllocString(name: seq<Byte>, maxlen: nat) returns (data: nat)
      requires Valid() && GoodName(name) && End() + Pad4(4 + HdrLen(|name|) + maxlen) < LEN_LIMIT
      modifies `buf
      ensures Pending(name) && data == End() + 4 + HdrLen(|name|) && data + maxlen <= |buf|
    {
      hide Put, Spine, SpineSize, BodySize, Body, Labelled, RawLen, GoodFrame, Len24, Zeros, NameHdr, HdrLen, GoodName,
           AllGoodFrames, Nesting, Pad4, Pending, Headed, Chunk;
      NestingParts(outer, top);
      Pad4Range(4 + HdrLen(|name|) + maxlen);
      var attr;
      attr, data := BlobmsgNew(TYPE_STRING, name, maxlen);
      HdrAligned(|name|);
      Allocated(buf, outer, top, name, maxlen);
      Shrink(attr, maxlen);
      IsPending(name);
    }

    lemma IsPending(name: seq<Byte>)
      requires Framed() && GoodName(name) && End() + 4 + HdrLen(|name|) < LEN_LIMIT
      requires buf[..End()] == Spine(outer) + Chunk(top, 0) && Headed(buf, End(), TYPE_STRING, name)
      ensures Pending(name)
    {
    }

    /** The room for the string is not counted yet. */
    method Shrink(attr: nat, maxlen: nat)
      requires head + 4 <= |buf| && attr + 4 <= |buf| && PadLen(buf, head) >= PadLen(buf, attr)
      requires var m1 := Put(buf, head + 1, Len24((PadLen(buf, head) - PadLen(buf, attr)) % LEN_LIMIT));
               RawLen(m1, attr) >= maxlen
      modifies `buf
      ensures var m1 := Put(old(buf), head + 1, Len24((PadLen(old(buf), head) - PadLen(old(buf), attr)) % LEN_LIMIT));
              buf == Put(m1, attr + 1, Len24((RawLen(m1, attr) - maxlen) % LEN_LIMIT))
    {
      hide Put, Len24, RawLen, Pad4;
      SetRawLen(head, PadLen(buf, head) - PadLen(buf, attr));
      SetRawLen(attr, RawLen(buf, attr) - maxlen);
    }

    /** `blobmsg_realloc_string_buffer`: room for `maxlen` bytes, what is written stays. */
    method ReallocString(ghost name: seq<Byte>, maxlen: nat) returns (data: nat)
      requires Pending(name)
      modifies `buf
      ensures Pending(name) && data == End() + 4 + HdrLen(|name|) && data + maxlen <= |buf|
      ensures |old(buf)| <= |buf| && old(buf) == buf[..|old(buf)|]
    {
      hide Put, Spine, SpineSize, BodySize, Body, Labelled, RawLen, GoodFrame, Len24, Zeros, NameHdr, HdrLen, GoodName,
           AllGoodFrames, Nesting;
      NestingParts(outer, top);
      ghost var m, e := buf, End();
      NextAttr(buf, outer, top, name, TYPE_STRING);
      var attr := head + PadLen(buf, head);
      var offset := attr + PadLen(buf, attr);
      var required := maxlen - (|buf| - offset);
      if required > 0 {
        Grow(required);
        GrownSame(m, buf, e, offset);
      }
      data := offset;
    }

    /** The unfinished string, and the length of what the caller has written. */
    method Scan(ghost name: seq<Byte>, ghost str: seq<Byte>) returns (attr: nat, n: nat)
      requires Pending(name) && Strung(buf, End(), name, str) && 0 !in str
      ensures attr == End() && attr % 4 == 0 && n == |str|
    {
      hide Spine, SpineSize, BodySize, Body, Labelled, RawLen, GoodFrame, Len24, NameHdr, HdrLen, AllGoodFrames,
           Nesting, Pad4;
      NestingParts(outer, top);
      NextAttr(buf, outer, top, name, TYPE_STRING);
      attr := head + PadLen(buf, head);
      var data := attr + 4 + HdrLen(NameLen(buf[attr..]));
      StrAt(buf, data, str);
      n := StrLen(buf, data, |str|);
      FrameAligned(top);
      SpineAligned(outer);
    }

    /** `blobmsg_add_string_buffer`: the string the caller has written, up to its NUL,
        becomes an attribute. */
    method AddString(ghost name: seq<Byte>, ghost str: seq<Byte>)
      requires Pending(name) && Strung(buf, End(), name, str) && 0 !in str
      requires End() + Size(Field(TYPE_STRING, name, str + [0])) < LEN_LIMIT
      modifies `buf, `top
      ensures Valid() && outer == old(outer)
      ensures top == old(top).(kids := old(top).kids + [Field(3, name, str + [0])])
      ensures End() == old(End()) + Size(Field(3, name, str + [0]))
      ensures buf[old(End())..End()] == Ser(Field(3, name, str + [0]))
    {
      hide Put, Spine, SpineSize, BodySize, Body, Labelled, RawLen, GoodFrame, Len24, NameHdr, HdrLen, GoodName,
           AllGoodFrames, Nesting, Ser, SerAll, Size, Pad4, Headed, FillPad;
      ghost var f := Field(TYPE_STRING, name, str + [0]);
      var attr, n := Scan(name, str);
      NestingParts(outer, top);
      FieldFits(attr, name, str, |buf|);
      Finished(buf, outer, top, name, str, f, attr, 4 + HdrLen(|name|) + |str| + 1, 4 + BodySize(top) + Size(f));
      SetRawLen(attr, RawLen(buf, attr) + n + 1);
      buf := FillPad(buf, attr);
      SetRawLen(head, RawLen(buf, head) + PadLen(buf, attr));
      NestingMore(outer, top, f);
      ghost var p := top;
      top := top.(kids := top.kids + [f]);
      LastAttr(buf, outer, p, f);
    }

    /** `blob_for_each_attr` over a finished message, each attribute read with the
        accessors: exactly what was added. */
    method Read() returns (ms: seq<Msg>)
      requires Valid() && outer == []
      ensures ms == NormAll(top.kids) && ((forall m :: m in top.kids ==> Typed(m)) ==> ms == top.kids)
    {
      if forall m :: m in top.kids ==> Typed(m) { NormAllSame(top.kids); }
      Finish(buf, top);
      ms := Attrs(buf[4..RawLen(buf, 0)]);
    }
  }

  /** A padded attribute fits where the unpadded one does. */
  lemma Fits(pos: nat, payload: nat, buflen: nat)
    requires pos % 4 == 0 && buflen % 256 == 0 && pos + 4 + payload <= buflen
    ensures pos + Pad4(4 + payload) <= buflen && 0 <= Pad4(4 + payload) - 4 - payload < 4
  {
  }

  /** The length field of an open attribute. */
  lemma LabelLen(m: seq<Byte>, front: seq<Byte>, f: Frame, len: nat)
    requires GoodFrame(f) && BodySize(f) < LEN_LIMIT && len < LEN_LIMIT
    requires |front| + 4 + BodySize(f) <= |m| && m[..|front| + 4 + BodySize(f)] == front + Labelled(f, len)
    ensures RawLen(m, |front|) == len
  {
    hide Body, RawLen, Len24, BodySize, GoodFrame;
    var h, e := |front|, |front| + 4 + BodySize(f);
    assert m[h + 1..h + 4] == m[..e][h + 1..h + 4] == Labelled(f, len)[1..4] == Len24(len);
    Len24Back(m, h, len);
  }

  lemma HeaderLen(m: seq<Byte>, o: nat, id: Byte, len: nat)
    requires len < LEN_LIMIT && o + 4 <= |m| && m[o..o + 4] == [id] + Len24(len)
    ensures RawLen(m, o) == len
  {
    assert m[o + 1..o + 4] == m[o..o + 4][1..4];
    Len24Back(m, o, len);
  }

  /** Counting the new attribute at `e` in the length of the innermost open one. */
  lemma NewedLen(m: seq<Byte>, outer: seq<Frame>, f: Frame, e: nat, id: Byte, payload: nat)
    requires AllGoodFrames(outer) && GoodFrame(f) && e == SpineSize(outer) + 4 + BodySize(f)
    requires e + Pad4(4 + payload) < LEN_LIMIT && e + Pad4(4 + payload) <= |m|
    requires m[..e] == Spine(outer) + Labelled(f, 4 + BodySize(f)) && m[e..e + 4] == [id] + Len24(4 + payload)
    ensures var o, l := SpineSize(outer), 4 + BodySize(f) + Pad4(4 + payload);
            && PadLen(m, o) + PadLen(m, e) == l
            && var r := Put(m, o + 1, Len24(l));
            && r[..e] == Spine(outer) + Labelled(f, l) && r[e..e + 4] == m[e..e + 4]
            && r[e + 4 + payload..e + Pad4(4 + payload)] == m[e + 4 + payload..e + Pad4(4 + payload)]
  {
    hide Put, Spine, SpineSize, BodySize, Labelled, RawLen, GoodFrame, Len24, AllGoodFrames;
    var len := 4 + BodySize(f);
    var l := Len24(len + Pad4(4 + payload));
    FrameAligned(f);
    Pad4Same(len);
    LabelLen(m, Spine(outer), f, len);
    HeaderLen(m, e, id, 4 + payload);
    Relabel(m, Spine(outer), f, len, len + Pad4(4 + payload));
    PutMiss(m, SpineSize(outer) + 1, l, e, e + 4);
    PutMiss(m, SpineSize(outer) + 1, l, e + 4 + payload, e + Pad4(4 + payload));
  }

  lemma LabelParts(front: seq<Byte>, f: Frame, len: nat)
    requires GoodFrame(f) && BodySize(f) < LEN_LIMIT && len < LEN_LIMIT
    ensures var x, h := front + Labelled(f, len), |front|; var tag := [if f.Root? then f.id else Tag(f.isArray)];
            x[..h + 1] == front + tag && x[h + 4..] == Body(f)
            && forall len' :: 0 <= len' < LEN_LIMIT ==>
               front + Labelled(f, len') == (front + tag) + (Len24(len') + Body(f))
  {
    hide Body, Len24, BodySize, GoodFrame;
  }

  /** Patching the length field of an open attribute. */
  lemma Relabel(m: seq<Byte>, front: seq<Byte>, f: Frame, len: nat, len': nat)
    requires GoodFrame(f) && BodySize(f) < LEN_LIMIT && len < LEN_LIMIT && len' < LEN_LIMIT
    requires |front| + 4 + BodySize(f) <= |m| && m[..|front| + 4 + BodySize(f)] == front + Labelled(f, len)
    ensures Put(m, |front| + 1, Len24(len'))[..|front| + 4 + BodySize(f)] == front + Labelled(f, len')
  {
    hide Body, Len24, BodySize, GoodFrame, Put;
    var h, e, k := |front|, |front| + 4 + BodySize(f), Len24(len');
    var x, r := m[..e], Put(m, h + 1, k);
    PutHit(m, h + 1, k);
    PutMiss(m, h + 1, k, 0, h + 1);
    PutMiss(m, h + 1, k, h + 4, e);
    LabelParts(front, f, len);
    assert m[0..h + 1] == x[..h + 1] && m[h + 4..e] == x[h + 4..];
    Cat(r, 0, h + 1, e);
    Cat(r, h + 1, h + 4, e);
    assert r[0..e] == r[..e];
  }

  predicate ZeroPad(m: seq<Byte>, a: nat, b: nat) {
    a <= b <= |m| && m[a..b] == Zeros(b - a)
  }

  /** What blobmsg_new writes over the header of the attribute at `o`. */
  function WithHeader(m: seq<Byte>, o: nat, typ: nat, name: seq<Byte>): (r: seq<Byte>)
    requires typ < 128 && |name| < NAME_LIMIT && o + 4 + HdrLen(|name|) <= |m|
    ensures |r| == |m|
  {
    HdrAligned(|name|);
    Put(Put(Put(Put(m, o, [128 + typ]), o + 4, Be16(|name|)), o + 6, name + [0]), o + 6 + |name|,
        Zeros(HdrLen(|name|) - 2 - |name|))
  }

  lemma NameWritten(m: seq<Byte>, o: nat, d: nat, name: seq<Byte>)
    requires o + 7 + |name| <= d <= |m|
    ensures var r := Put(Put(m, o + 6, name + [0]), o + 6 + |name|, Zeros(d - (o + 6 + |name|)));
            && r[..o] == m[..o] && r[o..o + 1] == m[o..o + 1] && r[o + 1..o + 4] == m[o + 1..o + 4]
               && r[o + 4..o + 6] == m[o + 4..o + 6]
            && r[o + 6..o + 6 + |name|] == name && r[o + 6 + |name|..d] == Zeros(d - (o + 6 + |name|))
               && r[d..] == m[d..]
  {
    hide Put;
    var n, t, z := o + 6 + |name|, name + [0], Zeros(d - (o + 6 + |name|));
    var m3 := Put(m, o + 6, t);
    PutMiss(m, o + 6, t, 0, o + 6);
    PutMiss(m, o + 6, t, d, |m|);
    PutHit(m, o + 6, t);
    PutMiss(m3, n, z, 0, o + 6);
    PutMiss(m3, n, z, o + 6, n);
    PutMiss(m3, n, z, d, |m|);
    PutHit(m3, n, z);
    var r := Put(m3, n, z);
    assert m3[o + 6..n] == m3[o + 6..n + 1][..|name|];
    SubSlices(r, m, o);
  }

  lemma SameSlice(r: seq<Byte>, m: seq<Byte>, k: nat, a: nat, b: nat)
    requires a <= b <= k <= |m| && k <= |r| && r[0..k] == m[0..k]
    ensures r[a..b] == m[a..b]
  {
    assert r[0..k][a..b] == r[a..b] && m[0..k][a..b] == m[a..b];
  }

  lemma SubSlices(r: seq<Byte>, m: seq<Byte>, o: nat)
    requires o + 6 <= |m| && |r| == |m| && r[0..o + 6] == m[0..o + 6]
    ensures r[..o] == m[..o] && r[o..o + 1] == m[o..o + 1] && r[o + 1..o + 4] == m[o + 1..o + 4]
            && r[o + 4..o + 6] == m[o + 4..o + 6]
  {
    SameSlice(r, m, o + 6, 0, o);
    SameSlice(r, m, o + 6, o, o + 1);
    SameSlice(r, m, o + 6, o + 1, o + 4);
    SameSlice(r, m, o + 6, o + 4, o + 6);
  }

  lemma Join5(r: seq<Byte>, a: nat, b: nat, c: nat, d: nat, e: nat, f: nat)
    requires a <= b <= c <= d <= e <= f <= |r|
    ensures r[a..f] == r[a..b] + r[b..c] + (r[c..d] + r[d..e] + r[e..f])
  {
    Cat(r, a, c, f);
    Cat(r, a, b, c);
    Cat(r, c, e, f);
    Cat(r, c, d, e);
  }

  lemma HeaderWritten(m: seq<Byte>, o: nat, typ: nat, len: nat, name: seq<Byte>)
    requires typ < 128 && |name| < NAME_LIMIT && o + 4 + HdrLen(|name|) <= |m| && len < LEN_LIMIT
    requires m[o..o + 4] == [typ as Byte] + Len24(len)
    ensures m[o] == typ
    ensures var r, d := WithHeader(m, o, typ, name), o + 4 + HdrLen(|name|);
            r[..o] == m[..o] && r[o..d] == [128 + typ] + Len24(len) + NameHdr(name) && r[d..] == m[d..]
  {
    hide Len24, Be16, Zeros, HdrLen, Put;
    HdrAligned(|name|);
    var n, d := |name|, o + 4 + HdrLen(|name|);
    var m2 := Put(Put(m, o, [128 + typ]), o + 4, Be16(n));
    TagWritten(m, o, d, typ, len, n);
    NameWritten(m2, o, d, name);
    Join5(WithHeader(m, o, typ, name), o, o + 1, o + 4, o + 6, o + 6 + n, d);
  }

  lemma TagWritten(m: seq<Byte>, o: nat, d: nat, typ: nat, len: nat, n: nat)
    requires typ < 128 && n < NAME_LIMIT && o + 6 <= d <= |m| && len < LEN_LIMIT
    requires m[o..o + 4] == [typ as Byte] + Len24(len)
    ensures m[o] == typ
    ensures var r := Put(Put(m, o, [128 + typ]), o + 4, Be16(n));
            && r[..o] == m[..o] && r[o..o + 1] == [128 + typ] && r[o + 1..o + 4] == Len24(len)
            && r[o + 4..o + 6] == Be16(n) && r[d..] == m[d..]
  {
    hide Len24, Be16, Put;
    var m1 := Put(m, o, [128 + typ]);
    var r := Put(m1, o + 4, Be16(n));
    PutHit(m, o, [128 + typ]);
    PutMiss(m, o, [128 + typ], 0, o);
    PutMiss(m, o, [128 + typ], o + 1, o + 4);
    PutMiss(m, o, [128 + typ], d, |m|);
    PutHit(m1, o + 4, Be16(n));
    PutMiss(m1, o + 4, Be16(n), 0, o);
    PutMiss(m1, o + 4, Be16(n), o, o + 1);
    PutMiss(m1, o + 4, Be16(n), o + 1, o + 4);
    PutMiss(m1, o + 4, Be16(n), d, |m|);
    assert m[o] == m[o..o + 4][0] && m[o + 1..o + 4] == m[o..o + 4][1..4];
    assert r[..o] == r[0..o] && m[..o] == m[0..o];
    assert r[d..] == r[d..|m|] && m[d..] == m[d..|m|];
  }

  /** The attribute whose header, data and padding are in place. */
  lemma FieldWritten(m: seq<Byte>, o: nat, typ: nat, name: seq<Byte>, value: seq<Byte>)
    requires GoodField(typ, name) && Size(Field(typ, name, value)) < LEN_LIMIT
    requires o + Size(Field(typ, name, value)) <= |m|
    requires var d, len := o + 4 + HdrLen(|name|), 4 + HdrLen(|name|) + |value|;
             && m[o..d] == [128 + typ] + Len24(len) + NameHdr(name)
             && m[d..d + |value|] == value && ZeroPad(m, d + |value|, o + Pad4(len))
    ensures m[o..o + Size(Field(typ, name, value))] == Ser(Field(typ, name, value))
  {
    hide Len24, NameHdr, HdrLen, Zeros, GoodField;
    var d, len := o + 4 + HdrLen(|name|), 4 + HdrLen(|name|) + |value|;
    assert m[o..o + Pad4(len)] == m[o..d] + m[d..d + |value|] + m[d + |value|..o + Pad4(len)];
  }

  /** Closing a chunk over one more attribute. */
  lemma {:induction false} ChunkSnoc(f: Frame, m: Msg)
    requires GoodFrame(f) && Good(m) && 4 + BodySize(f) + Size(m) < LEN_LIMIT
    ensures var f' := f.(kids := f.kids + [m]);
            && GoodFrame(f') && BodySize(f') == BodySize(f) + Size(m)
            && Chunk(f', 0) == Labelled(f, 4 + BodySize(f) + Size(m)) + Ser(m)
  {
    hide Ser, SerAll, SizeAll, Size, Good, Len24, NameHdr;
    SerSnoc(f.kids, m);
  }

  /** The attribute that was added last is at the end of the message. */
  lemma {:induction false} LastAttr(m: seq<Byte>, outer: seq<Frame>, f: Frame, a: Msg)
    requires AllGoodFrames(outer) && GoodFrame(f) && Good(a) && Offset(outer, f) + Size(a) < LEN_LIMIT
    requires var f' := f.(kids := f.kids + [a]);
             && GoodFrame(f') && Offset(outer, f') == Offset(outer, f) + Size(a) <= |m|
             && m[..Offset(outer, f')] == Spine(outer) + Chunk(f', 0)
    ensures m[Offset(outer, f)..Offset(outer, f) + Size(a)] == Ser(a)
  {
    hide Spine, SpineSize, Labelled, Chunk, Ser, GoodFrame, Good, BodySize, Size, AllGoodFrames;
    ChunkSnoc(f, a);
    var e, l := Offset(outer, f), Labelled(f, 4 + BodySize(f) + Size(a));
    var x := m[..e + Size(a)];
    assert x == Spine(outer) + (l + Ser(a));
    assert x[e..] == Ser(a) && m[e..e + Size(a)] == x[e..];
  }

  /** The first byte of the innermost open attribute. */
  lemma OpenTag(m: seq<Byte>, outer: seq<Frame>, f: Frame)
    requires AllGoodFrames(outer) && GoodFrame(f) && f.Open? && Offset(outer, f) < LEN_LIMIT && Offset(outer, f) <= |m|
    requires m[..Offset(outer, f)] == Spine(outer) + Chunk(f, 0)
    ensures m[SpineSize(outer)] == if f.isArray then 129 else 130
  {
    hide Spine, SpineSize, BodySize, Body, GoodFrame, AllGoodFrames;
    assert m[..Offset(outer, f)][SpineSize(outer)] == Chunk(f, 0)[0];
  }

  lemma NumberAt(m: seq<Byte>, e: nat, k: nat, name: seq<Byte>, v: nat)
    requires GoodName(name) && (k == 1 || k == 2 || k == 4 || k == 8)
    requires Size(Field(NumberType(k), name, Be(k, v))) < LEN_LIMIT
    requires e + Size(Field(NumberType(k), name, Be(k, v))) <= |m|
    requires m[e..e + Size(Field(NumberType(k), name, Be(k, v)))] == Ser(Field(NumberType(k), name, Be(k, v)))
    ensures e + 4 + HdrLen(|name|) + k <= |m| && m[e + 4 + HdrLen(|name|)..][..k] == Be(k, v)
    ensures m[e] == if k == 8 then 132 else if k == 4 then 133 else if k == 2 then 134 else 135
  {
    hide Be, Ser, Size, GoodName;
    var f := Field(NumberType(k), name, Be(k, v));
    SerBytes(f);
    var x, d := m[e..e + Size(f)], 4 + HdrLen(|name|);
    assert m[e] == x[0];
    assert d == 4 + (|name| + 6) / 4 * 4;
    assert x[d..d + k] == f.value;
    SliceOf(m, e, |x|, d, k);
  }

  lemma SliceOf(m: seq<Byte>, e: nat, n: nat, d: nat, k: nat)
    requires e + n <= |m| && d + k <= n
    ensures m[e + d..][..k] == m[e..e + n][d..d + k]
  {
    var x, y := m[e + d..][..k], m[e..e + n][d..d + k];
    forall i | 0 <= i < k
      ensures x[i] == y[i]
    {
      assert x[i] == m[e + d + i] == y[i];
    }
  }

  lemma ValueWritten(m: seq<Byte>, o: nat, typ: nat, name: seq<Byte>, value: seq<Byte>)
    requires GoodField(typ, name) && Size(Field(typ, name, value)) < LEN_LIMIT
    requires o + Size(Field(typ, name, value)) <= |m|
    requires var d, len := o + 4 + HdrLen(|name|), 4 + HdrLen(|name|) + |value|;
             && m[o..d] == [128 + typ] + Len24(len) + NameHdr(name) && ZeroPad(m, d + |value|, o + Pad4(len))
    ensures var r := if |value| > 0 then Put(m, o + 4 + HdrLen(|name|), value) else m;
            && r[..o] == m[..o] && |r| == |m|
            && r[o..o + Size(Field(typ, name, value))] == Ser(Field(typ, name, value))
  {
    hide Len24, NameHdr, HdrLen, Zeros, GoodField, Put, Ser;
    var d, e := o + 4 + HdrLen(|name|), o + Size(Field(typ, name, value));
    var r := m;
    if |value| > 0 {
      r := Put(m, d, value);
      PutHit(m, d, value);
      PutMiss(m, d, value, 0, o);
      PutMiss(m, d, value, o, d);
      PutMiss(m, d, value, d + |value|, e);
    }
    FieldWritten(r, o, typ, name, value);
  }

  /** One more attribute behind the innermost open one. */
  lemma {:induction false} Appended(m: seq<Byte>, outer: seq<Frame>, f: Frame, a: Msg)
    requires AllGoodFrames(outer) && GoodFrame(f) && Good(a)
    requires SpineSize(outer) + 4 + BodySize(f) + Size(a) < LEN_LIMIT
    requires var e := SpineSize(outer) + 4 + BodySize(f);
             && e + Size(a) <= |m| && m[..e] == Spine(outer) + Labelled(f, 4 + BodySize(f) + Size(a))
             && m[e..e + Size(a)] == Ser(a)
    ensures var f' := f.(kids := f.kids + [a]);
            && GoodFrame(f') && BodySize(f') == BodySize(f) + Size(a)
            && m[..SpineSize(outer) + 4 + BodySize(f')] == Spine(outer) + Chunk(f', 0)
  {
    hide Spine, SpineSize, Labelled, Chunk, Ser, GoodFrame, Good, BodySize, Size;
    ChunkSnoc(f, a);
    var e := SpineSize(outer) + 4 + BodySize(f);
    Cat(m, 0, e, e + Size(a));
    assert m[0..e] == m[..e] && m[0..e + Size(a)] == m[..e + Size(a)];
  }

  /** The memory of a freshly opened attribute. */
  lemma Opened(m: seq<Byte>, outer: seq<Frame>, f: Frame, isArray: bool, name: seq<Byte>)
    requires AllGoodFrames(outer) && GoodFrame(f) && GoodName(name)
    requires SpineSize(outer) + 4 + BodySize(f) + 4 + HdrLen(|name|) < LEN_LIMIT
    requires var e := SpineSize(outer) + 4 + BodySize(f);
             var d := e + 4 + HdrLen(|name|);
             && d <= |m| && m[..e] == Spine(outer) + Labelled(f, 4 + BodySize(f) + 4)
             && m[e..d] == [Tag(isArray)] + Len24(4 + HdrLen(|name|)) + NameHdr(name)
    ensures var t := Open(isArray, name, []);
            && GoodFrame(t) && BodySize(t) == HdrLen(|name|)
            && AllGoodFrames(outer + [f])
            && SpineSize(outer + [f]) == SpineSize(outer) + 4 + BodySize(f)
            && m[..SpineSize(outer + [f]) + 4 + BodySize(t)] == Spine(outer + [f]) + Chunk(t, 0)
  {
    hide Spine, SpineSize, Len24, NameHdr, HdrLen, Tag;
    var e, t := SpineSize(outer) + 4 + BodySize(f), Open(isArray, name, []);
    var d := e + 4 + HdrLen(|name|);
    SpineSnoc(outer, f);
    assert Chunk(t, 0) == [Tag(isArray)] + Len24(4 + HdrLen(|name|)) + NameHdr(name);
    assert m[..d] == m[..e] + m[e..d];
  }

  /** Taking the name of the new attribute off the length of the one around it. */
  lemma Opening(m: seq<Byte>, outer: seq<Frame>, f: Frame, isArray: bool, name: seq<Byte>)
    requires AllGoodFrames(outer) && GoodFrame(f) && GoodName(name)
    requires SpineSize(outer) + 4 + BodySize(f) + 4 + HdrLen(|name|) < LEN_LIMIT
    requires var e := SpineSize(outer) + 4 + BodySize(f);
             var d := e + 4 + HdrLen(|name|);
             && d <= |m| && m[..e] == Spine(outer) + Labelled(f, 4 + BodySize(f) + (4 + HdrLen(|name|)))
             && m[e..d] == [Tag(isArray)] + Len24(4 + HdrLen(|name|)) + NameHdr(name)
    ensures var o, t := SpineSize(outer), Open(isArray, name, []);
            && 0 <= PadLen(m, o) - HdrLen(|name|) < LEN_LIMIT
            && var r := Put(m, o + 1, Len24(PadLen(m, o) - HdrLen(|name|)));
            && GoodFrame(t) && BodySize(t) == HdrLen(|name|) && AllGoodFrames(outer + [f])
            && SpineSize(outer + [f]) == o + 4 + BodySize(f)
            && r[..SpineSize(outer + [f]) + 4 + BodySize(t)] == Spine(outer + [f]) + Chunk(t, 0)
  {
    hide Spine, SpineSize, BodySize, Labelled, RawLen, GoodFrame, Len24, NameHdr, HdrLen, GoodName, AllGoodFrames, Put,
         Chunk;
    var o, len, e := SpineSize(outer), 4 + BodySize(f), SpineSize(outer) + 4 + BodySize(f);
    var l := len + (4 + HdrLen(|name|));
    HdrAligned(|name|);
    FrameAligned(f);
    Pad4Same(l);
    LabelLen(m, Spine(outer), f, l);
    Relabel(m, Spine(outer), f, l, len + 4);
    PutMiss(m, o + 1, Len24(len + 4), e, e + 4 + HdrLen(|name|));
    Opened(Put(m, o + 1, Len24(len + 4)), outer, f, isArray, name);
  }

  /** A closed table is its chunk. */
  lemma NestedChunk(f: Frame)
    requires GoodFrame(f) && f.Open? && 4 + BodySize(f) < LEN_LIMIT
    ensures var a := Nested(f.isArray, f.name, f.kids);
            Good(a) && Size(a) == 4 + BodySize(f) && Ser(a) == Chunk(f, 0)
  {
    hide Len24, NameHdr, HdrLen, Tag, GoodName;
  }

  /** Patching the length of the attribute around the innermost one, to close that. */
  lemma {:induction false} Closing(m: seq<Byte>, os: seq<Frame>, p: Frame, outer: seq<Frame>, f: Frame)
    requires outer == os + [p] && AllGoodFrames(outer) && GoodFrame(f) && f.Open?
    requires SpineSize(outer) + 4 + BodySize(f) < LEN_LIMIT
    requires var e := SpineSize(outer) + 4 + BodySize(f);
             e <= |m| && m[..e] == Spine(outer) + Chunk(f, 0)
    ensures var o, e := SpineSize(os), SpineSize(outer) + 4 + BodySize(f);
            && o + 4 <= |m| && SpineSize(outer) + 4 <= |m| && RawLen(m, SpineSize(outer)) >= 4
            && PadLen(m, o) + RawLen(m, SpineSize(outer)) - 4 < LEN_LIMIT
            && var r := Put(m, o + 1, Len24(PadLen(m, o) + RawLen(m, SpineSize(outer)) - 4));
            var p' := p.(kids := p.kids + [Nested(f.isArray, f.name, f.kids)]);
            && GoodFrame(p') && o + 4 + BodySize(p') == e
            && r[..e] == Spine(os) + Chunk(p', 0)
  {
    hide Spine, SpineSize, Labelled, BodySize, RawLen, Put, GoodFrame, Len24, Ser, Size, Good;
    var a := Nested(f.isArray, f.name, f.kids);
    assert p in outer && forall g :: g in os ==> g in outer;
    var o, s, e, len := SpineSize(os), SpineSize(outer), SpineSize(outer) + 4 + BodySize(f), 4 + BodySize(p);
    SizePart(os, p);
    SpineSnoc(os, p);
    NestedChunk(f);
    FrameAligned(p);
    Pad4Same(len + 4);
    LabelLen(m, Spine(outer), f, 4 + BodySize(f));
    Split(m, Spine(outer), Ser(a));
    LabelLen(m, Spine(os), p, len + 4);
    var l := len + Size(a);
    var r := Put(m, o + 1, Len24(l));
    Relabel(m, Spine(os), p, len + 4, l);
    PutMiss(m, o + 1, Len24(l), s, e);
    Appended(r, os, p, a);
  }

  lemma {:induction false} NestedSize(outer: seq<Frame>, f: Frame, os: seq<Frame>, p: Frame, a: Msg)
    requires outer == os + [p] && GoodFrame(p) && GoodFrame(f) && f.Open? && a == Nested(f.isArray, f.name, f.kids)
    ensures Good(a) && Size(a) == 4 + BodySize(f) && SpineSize(outer) == Offset(os, p)
    ensures Offset(os, p.(kids := p.kids + [a])) == Offset(os, p) + Size(a)
  {
    hide SpineSize, GoodName, HdrLen, SizeAll;
    SizePart(os, p);
    SizeSnoc(p.kids, a);
  }

  lemma SizePart(os: seq<Frame>, p: Frame)
    ensures SpineSize(os + [p]) == SpineSize(os) + 4 + BodySize(p)
  {
    if os != [] {
      assert (os + [p])[1..] == os[1..] + [p];
      SizePart(os[1..], p);
    } else {
      assert os + [p] == [p];
    }
  }

  lemma Split(m: seq<Byte>, a: seq<Byte>, b: seq<Byte>)
    requires |a| + |b| <= |m| && m[..|a| + |b|] == a + b
    ensures m[..|a|] == a && m[|a|..|a| + |b|] == b
  {
    var x := m[..|a| + |b|];
    assert m[..|a|] == x[..|a|] && m[|a|..|a| + |b|] == x[|a|..];
  }

  // ----- a string written in place

  /** The header of an attribute without data. */
  ghost predicate Headed(m: seq<Byte>, o: nat, typ: nat, name: seq<Byte>)
    requires |name| < NAME_LIMIT && 4 + HdrLen(|name|) < LEN_LIMIT && typ < 128
  {
    && o + 4 + HdrLen(|name|) <= |m|
    && m[o..o + 4 + HdrLen(|name|)] == [128 + typ] + Len24(4 + HdrLen(|name|)) + NameHdr(name)
  }

  lemma PatchLen(m: seq<Byte>, o: nat, tag: Byte, rest: seq<Byte>, len: nat, len': nat)
    requires len < LEN_LIMIT && len' < LEN_LIMIT && o + 4 + |rest| <= |m|
    requires m[o..o + 4 + |rest|] == [tag] + Len24(len) + rest
    ensures RawLen(m, o) == len
    ensures Put(m, o + 1, Len24(len'))[o..o + 4 + |rest|] == [tag] + Len24(len') + rest
  {
    hide Len24, RawLen, Put;
    var e, l := o + 4 + |rest|, Len24(len');
    var r := Put(m, o + 1, l);
    Parts(m, o, tag, Len24(len), rest);
    Len24Back(m, o, len);
    PutHit(m, o + 1, l);
    PutMiss(m, o + 1, l, o, o + 1);
    PutMiss(m, o + 1, l, o + 4, e);
    Cat(r, o, o + 4, e);
    Cat(r, o, o + 1, o + 4);
  }

  lemma Parts(m: seq<Byte>, o: nat, tag: Byte, l: seq<Byte>, rest: seq<Byte>)
    requires |l| == 3 && o + 4 + |rest| <= |m| && m[o..o + 4 + |rest|] == [tag] + l + rest
    ensures m[o..o + 1] == [tag] && m[o + 1..o + 4] == l && m[o + 4..o + 4 + |rest|] == rest
  {
    var e, x := o + 4 + |rest|, [tag] + l + rest;
    assert m[o..e][..1] == m[o..o + 1] && x[..1] == [tag];
    assert m[o..e][1..4] == m[o + 1..o + 4] && x[1..4] == l;
    assert m[o..e][4..] == m[o + 4..e] && x[4..] == rest;
  }

  /** Taking the room for the string off both lengths again. */
  lemma Allocated(m: seq<Byte>, outer: seq<Frame>, f: Frame, name: seq<Byte>, maxlen: nat)
    requires AllGoodFrames(outer) && GoodFrame(f) && GoodName(name)
    requires SpineSize(outer) + 4 + BodySize(f) + Pad4(4 + HdrLen(|name|) + maxlen) < LEN_LIMIT
    requires var e, len := SpineSize(outer) + 4 + BodySize(f), 4 + HdrLen(|name|) + maxlen;
             && e + Pad4(len) <= |m| && m[..e] == Spine(outer) + Labelled(f, 4 + BodySize(f) + Pad4(len))
             && m[e..e + 4 + HdrLen(|name|)] == [128 + TYPE_STRING] + Len24(len) + NameHdr(name)
    ensures var o, e := SpineSize(outer), SpineSize(outer) + 4 + BodySize(f);
            && PadLen(m, o) == 4 + BodySize(f) + PadLen(m, e)
            && var m1 := Put(m, o + 1, Len24(4 + BodySize(f)));
            && RawLen(m1, e) == 4 + HdrLen(|name|) + maxlen
            && var r := Put(m1, e + 1, Len24(4 + HdrLen(|name|)));
            && r[..e] == Spine(outer) + Chunk(f, 0) && Headed(r, e, TYPE_STRING, name)
  {
    hide Spine, SpineSize, BodySize, Labelled, RawLen, GoodFrame, Len24, NameHdr, HdrLen, AllGoodFrames, Put, Pad4;
    var o, e, len, b := SpineSize(outer), SpineSize(outer) + 4 + BodySize(f), 4 + HdrLen(|name|) + maxlen,
        4 + BodySize(f);
    Pad4Range(len);
    FrameAligned(f);
    Pad4Same(b + Pad4(len));
    LabelLen(m, Spine(outer), f, b + Pad4(len));
    Relabel(m, Spine(outer), f, b + Pad4(len), b);
    PatchLen(m, e, 128 + TYPE_STRING, NameHdr(name), len, len);
    PutMiss(m, o + 1, Len24(b), e, e + 4 + HdrLen(|name|));
    Shortened(Put(m, o + 1, Len24(b)), e, name, maxlen);
  }

  /** The header of an attribute that gives up its data. */
  lemma Shortened(m: seq<Byte>, e: nat, name: seq<Byte>, maxlen: nat)
    requires |name| < NAME_LIMIT && 4 + HdrLen(|name|) + maxlen < LEN_LIMIT && e + 4 + HdrLen(|name|) <= |m|
    requires m[e..e + 4 + HdrLen(|name|)] == [128 + TYPE_STRING] + Len24(4 + HdrLen(|name|) + maxlen) + NameHdr(name)
    ensures RawLen(m, e) == 4 + HdrLen(|name|) + maxlen
    ensures var r := Put(m, e + 1, Len24(4 + HdrLen(|name|)));
            r[..e] == m[..e] && Headed(r, e, TYPE_STRING, name)
  {
    hide RawLen, Len24, NameHdr, HdrLen, Put;
    var k := 4 + HdrLen(|name|);
    PatchLen(m, e, 128 + TYPE_STRING, NameHdr(name), k + maxlen, k);
    PutMiss(m, e + 1, Len24(k), 0, e);
    var r := Put(m, e + 1, Len24(k));
    assert r[..e] == r[0..e] && m[0..e] == m[..e];
  }

  /** `blob_next` of the innermost open attribute is the unfinished string. */
  lemma NextAttr(m: seq<Byte>, outer: seq<Frame>, f: Frame, name: seq<Byte>, typ: nat)
    requires AllGoodFrames(outer) && GoodFrame(f) && GoodName(name) && typ < 128
    requires SpineSize(outer) + 4 + BodySize(f) + 4 + HdrLen(|name|) < LEN_LIMIT
    requires var e := SpineSize(outer) + 4 + BodySize(f);
             e <= |m| && m[..e] == Spine(outer) + Chunk(f, 0) && Headed(m, e, typ, name)
    ensures var o, e := SpineSize(outer), SpineSize(outer) + 4 + BodySize(f);
            && e + 4 + HdrLen(|name|) <= |m|
            && RawLen(m, o) == PadLen(m, o) == 4 + BodySize(f)
            && RawLen(m, e) == PadLen(m, e) == 4 + HdrLen(|name|) && NameLen(m[e..]) == |name|
  {
    hide Spine, SpineSize, BodySize, Labelled, RawLen, GoodFrame, Len24, HdrLen, AllGoodFrames, Put, NameHdr, Pad4;
    var e, h := SpineSize(outer) + 4 + BodySize(f), NameHdr(name);
    HdrAligned(|name|);
    FrameAligned(f);
    Pad4Same(4 + BodySize(f));
    Pad4Same(4 + HdrLen(|name|));
    LabelLen(m, Spine(outer), f, 4 + BodySize(f));
    PatchLen(m, e, 128 + typ, h, 4 + HdrLen(|name|), 0);
    NameHdrLen(name);
    var x := m[e..e + 4 + HdrLen(|name|)];
    assert m[e..][4] == x[4] == h[0] && m[e..][5] == x[5] == h[1];
  }

  lemma NameHdrLen(name: seq<Byte>)
    requires |name| < NAME_LIMIT
    ensures |NameHdr(name)| >= 2 && (NameHdr(name)[0] as int) * 256 + NameHdr(name)[1] as int == |name|
  {
    assert NameHdr(name)[0] == |name| / 256 && NameHdr(name)[1] == |name| % 256;
  }

  /** `blob_fill_pad`. */
  function FillPad(m: seq<Byte>, o: nat): (r: seq<Byte>)
    requires o + 4 <= |m| && o + PadLen(m, o) <= |m|
    ensures |r| == |m|
  {
    var delta := PadLen(m, o) - RawLen(m, o);
    if delta > 0 then Put(m, o + PadLen(m, o) - delta, Zeros(delta)) else m
  }

  /** strlen of a string that ends after `k` bytes. */
  method StrLen(m: seq<Byte>, o: nat, ghost k: nat) returns (n: nat)
    requires o + k < |m| && m[o + k] == 0 && forall i :: o <= i < o + k ==> m[i] != 0
    ensures n == k
  {
    n := 0;
    while m[o + n] != 0
      invariant n <= k
      decreases k - n
    {
      n := n + 1;
    }
  }

  lemma StrAt(m: seq<Byte>, o: nat, str: seq<Byte>)
    requires o + |str| <= |m| && m[o..o + |str|] == str && 0 !in str
    ensures forall i :: o <= i < o + |str| ==> m[i] != 0
  {
    forall i | o <= i < o + |str|
      ensures m[i] != 0
    {
      assert m[i] == str[i - o];
    }
  }

  /** The attribute behind the innermost open one is counted in the length of that. */
  lemma {:induction false} Taken(m: seq<Byte>, outer: seq<Frame>, f: Frame, a: Msg)
    requires Laid(m, outer, f, 4 + BodySize(f)) && Good(a)
    requires Offset(outer, f) + Size(a) < LEN_LIMIT && Offset(outer, f) + Size(a) <= |m|
    requires m[Offset(outer, f)..Offset(outer, f) + Size(a)] == Ser(a)
    ensures RawLen(m, SpineSize(outer)) == 4 + BodySize(f)
    ensures BodySize(f.(kids := f.kids + [a])) == BodySize(f) + Size(a)
    ensures Laid(Put(m, SpineSize(outer) + 1, Len24(4 + BodySize(f) + Size(a))), outer, f.(kids := f.kids + [a]),
                 4 + BodySize(f) + Size(a))
  {
    hide Spine, SpineSize, BodySize, Labelled, RawLen, GoodFrame, Good, Len24, AllGoodFrames, Put, Ser, Size;
    var o, e, b := SpineSize(outer), Offset(outer, f), 4 + BodySize(f);
    LabelLen(m, Spine(outer), f, b);
    Relabel(m, Spine(outer), f, b, b + Size(a));
    PutMiss(m, o + 1, Len24(b + Size(a)), e, e + Size(a));
    Appended(Put(m, o + 1, Len24(b + Size(a))), outer, f, a);
  }

  lemma FieldFits(o: nat, name: seq<Byte>, str: seq<Byte>, buflen: nat)
    requires o % 4 == 0 && buflen % 256 == 0 && o + 4 + HdrLen(|name|) + |str| < buflen
    requires GoodName(name)
    ensures Good(Field(TYPE_STRING, name, str + [0])) && o + Size(Field(TYPE_STRING, name, str + [0])) <= buflen
    ensures Size(Field(TYPE_STRING, name, str + [0])) ==
            Pad4(4 + HdrLen(|name|) + |str| + 1) >= 4 + HdrLen(|name|) + |str| + 1
  {
    hide HdrLen, Pad4;
    Fits(o, HdrLen(|name|) + |str| + 1, buflen);
    Pad4Range(4 + HdrLen(|name|) + |str| + 1);
  }

  /** The string itself: its new length, its bytes and its padding. */
  ghost predicate Strung(m: seq<Byte>, e: nat, name: seq<Byte>, str: seq<Byte>)
    requires |name| < NAME_LIMIT && 4 + HdrLen(|name|) < LEN_LIMIT
  {
    && Headed(m, e, TYPE_STRING, name)
    && var d := e + 4 + HdrLen(|name|); d + |str| < |m| && m[d..d + |str|] == str && m[d + |str|] == 0
  }

  lemma Lengthened(m: seq<Byte>, e: nat, name: seq<Byte>, str: seq<Byte>, len: nat)
    requires |name| < NAME_LIMIT && len == 4 + HdrLen(|name|) + |str| + 1 < LEN_LIMIT && Strung(m, e, name, str)
    ensures var m1, d := Put(m, e + 1, Len24(len)), e + 4 + HdrLen(|name|);
            && m1[..e] == m[..e] && RawLen(m1, e) == len
            && m1[e..d] == [128 + TYPE_STRING] + Len24(len) + NameHdr(name) && m1[d..e + len] == str + [0]
  {
    hide RawLen, Len24, NameHdr, HdrLen, Put;
    var k, t, h := 4 + HdrLen(|name|), str + [0], NameHdr(name);
    var d := e + k;
    var m1 := Put(m, e + 1, Len24(len));
    PatchLen(m, e, 128 + TYPE_STRING, h, k, len);
    PatchLen(m1, e, 128 + TYPE_STRING, h, len, len);
    PutMiss(m, e + 1, Len24(len), 0, e);
    PutMiss(m, e + 1, Len24(len), d, d + |t|);
    assert m[d..d + |t|] == m[d..d + |str|] + [m[d + |str|]];
    assert m1[..e] == m1[0..e] && m[..e] == m[0..e];
  }

  lemma Padded(m: seq<Byte>, e: nat, name: seq<Byte>, t: seq<Byte>, len: nat)
    requires GoodName(name) && len == 4 + HdrLen(|name|) + |t| && Pad4(len) < LEN_LIMIT && e + Pad4(len) <= |m|
    requires var d := e + 4 + HdrLen(|name|);
             && RawLen(m, e) == len
             && m[e..d] == [128 + TYPE_STRING] + Len24(len) + NameHdr(name) && m[d..e + len] == t
    ensures FillPad(m, e)[..e] == m[..e] && RawLen(FillPad(m, e), e) == len
    ensures FillPad(m, e)[e..e + Pad4(len)] == Ser(Field(TYPE_STRING, name, t))
  {
    hide RawLen, Len24, NameHdr, HdrLen, Put, Ser, Zeros, Pad4;
    Pad4Range(len);
    var d, z, r := e + 4 + HdrLen(|name|), Zeros(Pad4(len) - len), FillPad(m, e);
    if |z| > 0 {
      PutMiss(m, e + len, z, 0, e);
      PutMiss(m, e + len, z, e, d);
      PutMiss(m, e + len, z, d, e + len);
      PutHit(m, e + len, z);
    }
    PatchLen(r, e, 128 + TYPE_STRING, NameHdr(name), len, len);
    assert r[..e] == r[0..e] && m[..e] == m[0..e];
    assert ZeroPad(r, e + len, e + Pad4(len));
    FieldWritten(r, e, TYPE_STRING, name, t);
  }

  /** What blobmsg_add_string_buffer makes of the memory. */
  lemma {:induction false} Finished(m: seq<Byte>, outer: seq<Frame>, f: Frame, name: seq<Byte>, str: seq<Byte>,
                                    a: Msg, e: nat, len: nat, l: nat)
    requires |m| % 256 == 0 && e == Offset(outer, f) && Laid(m, outer, f, 4 + BodySize(f))
    requires a == Field(TYPE_STRING, name, str + [0]) && GoodName(name)
    requires len == 4 + HdrLen(|name|) + |str| + 1 < LEN_LIMIT && Strung(m, e, name, str)
    requires l == 4 + BodySize(f) + Size(a) && SpineSize(outer) + l < LEN_LIMIT
    ensures e + 4 <= |m| && RawLen(m, e) + |str| + 1 == len
    ensures var m1 := Put(m, e + 1, Len24(len));
            && e + PadLen(m1, e) <= |m1|
            && var m2 := FillPad(m1, e);
            && RawLen(m2, SpineSize(outer)) + PadLen(m2, e) == l
            && Laid(Put(m2, SpineSize(outer) + 1, Len24(l)), outer, f.(kids := f.kids + [a]), l)
    ensures BodySize(f.(kids := f.kids + [a])) == l - 4
  {
    hide Spine, SpineSize, BodySize, Labelled, RawLen, GoodFrame, Len24, NameHdr, HdrLen, AllGoodFrames, Put, Ser,
         Zeros, FillPad, Size, Pad4, Good;
    FrameAligned(f);
    SpineAligned(outer);
    FieldFits(e, name, str, |m|);
    PatchLen(m, e, 128 + TYPE_STRING, NameHdr(name), 4 + HdrLen(|name|), len);
    Lengthened(m, e, name, str, len);
    var m1 := Put(m, e + 1, Len24(len));
    Padded(m1, e, name, str + [0], len);
    Taken(FillPad(m1, e), outer, f, a);
  }

  // ----- reading

  /** A finished message: the root header, and the serializer's bytes behind it. */
  lemma Finish(m: seq<Byte>, top: Frame)
    requires GoodFrame(top) && top.Root? && 4 + BodySize(top) < LEN_LIMIT && 4 + BodySize(top) <= |m|
    requires m[..4 + BodySize(top)] == Chunk(top, 0)
    ensures RawLen(m, 0) == 4 + SizeAll(top.kids) <= |m| && Id(m, 0) == top.id
    ensures m[4..RawLen(m, 0)] == SerAll(top.kids) && ParseAll(m[4..RawLen(m, 0)]) == NormAll(top.kids)
  {
    hide RawLen, Len24, SerAll, ParseAll;
    var e := 4 + BodySize(top);
    assert m[..e] == [] + Labelled(top, e);
    LabelLen(m, [], top, e);
    assert m[0] == m[..e][0];
    assert m[4..e] == m[..e][4..];
    ParseSerAll(top.kids);
  }

  lemma WalkOne(p: seq<Byte>, pos: nat)
    requires pos + 4 <= |p| && 4 <= PadLen(p, pos) <= |p| - pos
    ensures var n := PadLen(p, pos); ParseAll(p[pos..]) == [Parse(p[pos..pos + n])] + ParseAll(p[pos + n..])
  {
    hide RawLen, Parse;
    var n, q := PadLen(p, pos), p[pos..];
    SameLen(p, pos);
    assert q[..n] == p[pos..pos + n] && q[n..] == p[pos + n..];
  }

  lemma WalkEnd(p: seq<Byte>, pos: nat)
    requires pos <= |p| && (pos + 4 <= |p| ==> !(4 <= PadLen(p, pos) <= |p| - pos))
    ensures ParseAll(p[pos..]) == []
  {
    hide RawLen, Parse;
    if pos + 4 <= |p| { SameLen(p, pos); }
  }

  lemma SameLen(p: seq<Byte>, pos: nat)
    requires pos + 4 <= |p|
    ensures RawLen(p[pos..], 0) == RawLen(p, pos)
  {
  }

  method Attrs(p: seq<Byte>) returns (ms: seq<Msg>)
    ensures ms == ParseAll(p)
  {
    hide ParseAll, Parse, RawLen, Pad4;
    ms := [];
    var pos, rem := 0, |p|;
    assert p[0..] == p;
    while rem >= 4 && PadLen(p, pos) <= rem && PadLen(p, pos) >= 4
      invariant 0 <= rem && 0 <= pos && pos + rem == |p|
      invariant ParseAll(p) == ms + ParseAll(p[pos..])
    {
      var n := PadLen(p, pos);
      WalkOne(p, pos);
      ms := ms + [Parse(p[pos..pos + n])];
      rem := rem - n;
      pos := pos + n;
    }
    WalkEnd(p, pos);
  }
}
