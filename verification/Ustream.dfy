/** ustream.c: a chunked first-in first-out byte buffer, and the stream built on
    two of them. */
module Ustream {

  type Byte = bv8

  /** `ustream_buf`: `mem` is the room behind the header, `data` and `tail` are
      offsets into it; `end` is its size. */
  datatype Buf = Buf(mem: seq<Byte>, data: nat, tail: nat) {
    ghost predicate Valid() {
      && 0 < |mem| && data <= tail <= |mem|
      && (data == tail ==> data == 0)
    }

    predicate Full() { tail == |mem| }

    /** The bytes held. */
    function Bytes(): seq<Byte> { if data <= tail <= |mem| then mem[data..tail] else [] }
  }

  ghost function Content(bufs: seq<Buf>): seq<Byte> {
    if bufs == [] then [] else bufs[0].Bytes() + Content(bufs[1..])
  }

  ghost predicate AllValid(bufs: seq<Buf>) { forall i :: 0 <= i < |bufs| ==> bufs[i].Valid() }

  /** Where the data are: `dt` is the position of the `data_tail` buffer, or -1.
      Buffers before it are filled to their end, buffers behind it are empty. */
  ghost predicate Shaped(bufs: seq<Buf>, dt: int) {
    && AllValid(bufs)
    && (if bufs == [] then dt == -1 else 0 <= dt < |bufs|)
    && (forall i :: 0 <= i < dt ==> bufs[i].Full())
    && (forall i :: dt < i < |bufs| ==> bufs[i].data == 0 && bufs[i].tail == 0)
  }

  lemma {:induction false} ContentConcat(a: seq<Buf>, b: seq<Buf>)
    ensures Content(a + b) == Content(a) + Content(b)
  {
    if a == [] {
      assert a + b == b;
    } else {
      assert (a + b)[1..] == a[1..] + b;
      ContentConcat(a[1..], b);
    }
  }

  lemma {:induction false} ContentEmpty(bufs: seq<Buf>)
    requires forall i :: 0 <= i < |bufs| ==> bufs[i].data == bufs[i].tail
    ensures Content(bufs) == []
  {
    if bufs != [] { ContentEmpty(bufs[1..]); }
  }

  /** The content by the position of one buffer. */
  lemma ContentAt(bufs: seq<Buf>, i: int)
    requires 0 <= i < |bufs|
    ensures Content(bufs) == Content(bufs[..i]) + bufs[i].Bytes() + Content(bufs[i + 1..])
  {
    hide Content;
    var a, b, c := bufs[..i], bufs[i], bufs[i + 1..];
    Around(bufs, i);
    ContentConcat(a, [b] + c);
    ContentCons(b, c);
    assert Content(a) + (b.Bytes() + Content(c)) == Content(a) + b.Bytes() + Content(c);
  }

  lemma Around(bufs: seq<Buf>, i: int)
    requires 0 <= i < |bufs|
    ensures bufs == bufs[..i] + ([bufs[i]] + bufs[i + 1..])
  {
  }

  lemma ContentCons(b: Buf, c: seq<Buf>)
    ensures Content([b] + c) == b.Bytes() + Content(c)
  {
    assert ([b] + c)[1..] == c;
  }

  /** Replacing one buffer. */
  lemma ContentUpdate(bufs: seq<Buf>, i: int, b: Buf)
    requires 0 <= i < |bufs|
    ensures Content(bufs[i := b]) == Content(bufs[..i]) + b.Bytes() + Content(bufs[i + 1..])
  {
    ContentAt(bufs[i := b], i);
    assert bufs[i := b][..i] == bufs[..i] && bufs[i := b][i + 1..] == bufs[i + 1..];
  }

  /** The first buffer holds the next bytes, if there are any. */
  lemma HeadHolds(bufs: seq<Buf>, dt: int)
    requires Shaped(bufs, dt) && Content(bufs) != []
    ensures bufs != [] && bufs[0].data < bufs[0].tail && Content(bufs) == bufs[0].Bytes() + Content(bufs[1..])
  {
    assert bufs[0].Valid();
    if dt == 0 { ContentEmpty(bufs[1..]); }
  }

  lemma {:induction false} ContentAdvance(bufs: seq<Buf>, n: nat)
    requires bufs != [] && bufs[0].Valid() && bufs[0].data + n <= bufs[0].tail
    ensures Content(bufs[0 := bufs[0].(data := bufs[0].data + n)]) == bufs[0].Bytes()[n..] + Content(bufs[1..])
  {
    var b := bufs[0];
    assert b.(data := b.data + n).Bytes() == b.Bytes()[n..];
    assert bufs[0 := b.(data := b.data + n)][1..] == bufs[1..];
  }

  /** Going on from the first `k` bytes by the next `n`. */
  lemma Onward(all: seq<Byte>, k: nat, n: int)
    requires k <= |all| && n <= |all[k..]|
    ensures 0 <= n ==> all[..k] + all[k..][..n] == all[..k + n] && all[k..][n..] == all[k + n..]
  {
  }

  lemma Split(s: seq<Byte>, all: seq<Byte>, n: nat)
    requires n <= |all|
    ensures s + all == s + all[..n] + all[n..]
  {
    assert all == all[..n] + all[n..];
  }

  /** The next `n` bytes behind the first `k`. */
  lemma Further<T>(s: seq<T>, k: nat, n: nat)
    requires k + n <= |s|
    ensures s[..k + n] == s[..k] + s[k..k + n] && s[k..][..n] == s[k..k + n]
  {
  }

  lemma Skip(a: seq<Byte>, b: seq<Byte>, n: nat)
    requires n <= |a| + |b|
    ensures n <= |a| ==> (a + b)[n..] == a[n..] + b
    ensures n >= |a| ==> (a + b)[n..] == b[n - |a|..]
  {
  }

  /** Bytes appended at the `data_tail` buffer come last. */
  lemma ContentAppend(bufs: seq<Buf>, dt: int, b: Buf, bytes: seq<Byte>)
    requires Shaped(bufs, dt) && 0 <= dt && b.Bytes() == bufs[dt].Bytes() + bytes
    ensures Content(bufs[dt := b]) == Content(bufs) + bytes
  {
    ContentAt(bufs, dt);
    ContentUpdate(bufs, dt, b);
    ContentEmpty(bufs[dt + 1..]);
    Regroup(Content(bufs[..dt]), bufs[dt].Bytes(), bytes);
  }

  lemma Regroup(a: seq<Byte>, b: seq<Byte>, c: seq<Byte>)
    ensures a + (b + c) + [] == a + b + [] + c
  {
  }

  /** The room behind the data. */
  ghost function Room(bufs: seq<Buf>): int {
    if bufs == [] then 0 else |bufs[0].mem| - bufs[0].tail + Room(bufs[1..])
  }

  lemma {:induction false} RoomPositive(bufs: seq<Buf>)
    requires AllValid(bufs)
    ensures 0 <= Room(bufs)
  {
    if bufs != [] {
      assert bufs[0].Valid();
      RoomPositive(bufs[1..]);
    }
  }

  /** The chain when `ustream_free_buf` is through with its first buffer. */
  ghost function Freed(bufs: seq<Buf>, least: int): (r: seq<Buf>)
    requires bufs != []
    ensures Content(r) == Content(bufs[1..])
  {
    var empty := Buf(seq(|bufs[0].mem|, _ => 0), 0, 0);
    ContentConcat(bufs[1..], [empty]);
    ContentEmpty([empty]);
    assert Content(bufs[1..]) + [] == Content(bufs[1..]);
    if |bufs| - 1 >= least then bufs[1..] else bufs[1..] + [empty]
  }

  lemma RoomStep(bufs: seq<Buf>, i: nat)
    requires AllValid(bufs) && i < |bufs|
    ensures Room(bufs[i..]) == |bufs[i].mem| - bufs[i].tail + Room(bufs[i + 1..])
    ensures 0 <= Room(bufs[i + 1..]) && bufs[i].tail <= |bufs[i].mem|
    ensures i + 1 == |bufs| ==> Room(bufs[i + 1..]) == 0
  {
    assert bufs[i..][1..] == bufs[i + 1..] && bufs[i].Valid();
    RoomPositive(bufs[i + 1..]);
  }

  class BufList {
    var bufs: seq<Buf>
    var dataTail: int
    var dataBytes: int
    var buffers: int
    const minBuffers: int
    const maxBuffers: int
    const bufferLen: nat

    /** The chain is in shape and counted. */
    ghost predicate Chained()
      reads this
    {
      && Shaped(bufs, dataTail) && 0 < bufferLen
      && buffers == |bufs| && (maxBuffers > 0 ==> buffers <= maxBuffers)
    }

    ghost predicate Valid()
      reads this
    {
      Chained() && dataBytes == |Content(bufs)|
    }

    constructor (minBuffers: int, maxBuffers: int, bufferLen: nat)
      requires 0 < bufferLen
      ensures Valid() && bufs == []
      ensures this.minBuffers == minBuffers && this.maxBuffers == maxBuffers && this.bufferLen == bufferLen
    {
      this.minBuffers, this.maxBuffers, this.bufferLen := minBuffers, maxBuffers, bufferLen;
      bufs, dataTail, dataBytes, buffers := [], -1, 0, 0;
    }

    predicate CanAlloc()
      reads this
    {
      maxBuffers <= 0 || buffers < maxBuffers
    }

    /** `ustream_alloc_default` and `ustream_add_buf`: a fresh buffer at the end. */
    method AddBuf(len: nat)
      requires Chained() && 0 < len && (maxBuffers > 0 ==> buffers < maxBuffers)
      modifies `bufs, `dataTail, `buffers
      ensures Chained() && Content(bufs) == old(Content(bufs))
      ensures bufs == old(bufs) + [Buf(seq(len, _ => 0), 0, 0)]
      ensures dataTail == if old(dataTail) == -1 then 0 else old(dataTail)
    {
      var b := Buf(seq(len, _ => 0), 0, 0);
      ContentConcat(bufs, [b]);
      ContentEmpty([b]);
      buffers := buffers + 1;
      bufs := bufs + [b];
      if dataTail == -1 {
        dataTail := 0;
      }
    }

    /** `ustream_should_move`. */
    predicate ShouldMove(i: int, len: int)
      requires 0 <= i < |bufs|
      reads this
    {
      var b := bufs[i];
      if b.data == 0 then false
      else if b.data > |b.mem| / 2 then true
      else if b.tail - b.data < 32 && b.data > |b.mem| / 4 then true
      else if i != |bufs| - 1 || CanAlloc() then false
      else |b.mem| - b.tail < len
    }

    /** `ustream_prepare_buf`: room for at least one byte at `data_tail`, unless the
        last buffer is filled from its first byte to its end and there may be no
        further one. */
    method PrepareBuf(len: int) returns (ok: bool)
      requires Valid()
      modifies `bufs, `dataTail, `buffers
      ensures Valid() && Content(bufs) == old(Content(bufs))
      ensures ok ==> 0 <= dataTail && bufs[dataTail].tail < |bufs[dataTail].mem|
      ensures !ok && 0 < len ==>
                && bufs != [] && dataTail == |bufs| - 1
                && bufs[dataTail].data == 0 && bufs[dataTail].tail == |bufs[dataTail].mem|
      ensures |old(bufs)| <= |bufs| && (!ok ==> |bufs| == |old(bufs)| == maxBuffers)
      ensures 0 <= old(dataTail) ==>
                var b, c := old(bufs)[old(dataTail)], bufs[old(dataTail)];
                var moved := b.data > 0 &&
                             (b.data > |b.mem| / 2 || (b.tail - b.data < 32 && b.data > |b.mem| / 4)
                              || (old(dataTail) == |old(bufs)| - 1 == maxBuffers - 1 && |b.mem| - b.tail < len));
                && |c.mem| == |b.mem| && (if moved then c.data == 0 && c.tail == b.tail - b.data else c == b)
                && (c.tail < |c.mem| ==> dataTail == old(dataTail) && |bufs| == |old(bufs)|)
                && (c.tail == |c.mem| && old(dataTail) + 1 < |old(bufs)| ==>
                      dataTail == old(dataTail) + 1 && |bufs| == |old(bufs)|)
      ensures |bufs| > |old(bufs)| ==>
                |bufs| == |old(bufs)| + 1 && dataTail == |old(bufs)| && |bufs[dataTail].mem| == bufferLen
    {
      if dataTail >= 0 {
        if ShouldMove(dataTail, len) {
          Compact(dataTail);
        }
        if !bufs[dataTail].Full() {
          return true;
        }
        if dataTail + 1 < |bufs| {
          dataTail := dataTail + 1;
          return true;
        }
      }
      if !CanAlloc() {
        return false;
      }
      AddBuf(bufferLen);
      dataTail := |bufs| - 1;
      return true;
    }

    /** The memmove to the front of the buffer. */
    method Compact(i: int)
      requires Valid() && i == dataTail && 0 <= i
      modifies `bufs
      ensures Valid() && Content(bufs) == old(Content(bufs)) && |bufs| == |old(bufs)|
      ensures bufs[i].data == 0 && bufs[i].tail == old(bufs)[i].tail - old(bufs)[i].data
              && |bufs[i].mem| == |old(bufs)[i].mem|
    {
      var b := bufs[i];
      var len := b.tail - b.data;
      var b' := Buf(b.mem[b.data..b.tail] + b.mem[len..], 0, len);
      ContentAt(bufs, i);
      ContentUpdate(bufs, i, b');
      assert b'.Bytes() == b.Bytes();
      bufs := bufs[i := b'];
    }

    /** `ustream_free_buf` for the first buffer: it is freed, or put back at the end
        as an empty one while fewer than the minimum are left. */
    method FreeFirst()
      requires Chained() && bufs != []
      modifies `bufs, `dataTail, `buffers
      ensures Chained() && Content(bufs) == Content(old(bufs)[1..])
      ensures bufs == Freed(old(bufs), minBuffers)
      ensures |old(bufs)| - 1 >= minBuffers ==> bufs == old(bufs)[1..]
      ensures |old(bufs)| - 1 < minBuffers ==>
                bufs == old(bufs)[1..] + [Buf(seq(|old(bufs)[0].mem|, _ => 0), 0, 0)]
    {
      var b := bufs[0];
      bufs := bufs[1..];
      dataTail := if dataTail > 0 then dataTail - 1 else if bufs != [] then 0 else -1;
      buffers := buffers - 1;
      if buffers >= minBuffers {
        return;
      }
      AddBuf(|b.mem|);
    }

    /** Drops bytes from the front: the loop of `ustream_consume`. */
    method Drop(n: nat)
      requires Valid() && n <= |Content(bufs)|
      modifies `bufs, `dataTail, `buffers, `dataBytes
      ensures Valid() && Content(bufs) == old(Content(bufs))[n..]
    {
      hide Content;
      ghost var all := Content(bufs);
      dataBytes := dataBytes - n;
      var len := n;
      while len > 0
        invariant Chained() && 0 <= len <= n && len <= |Content(bufs)|
        invariant Content(bufs)[len..] == all[n..] && dataBytes == |all| - n
        decreases len
      {
        HeadHolds(bufs, dataTail);
        var bufLen := bufs[0].tail - bufs[0].data;
        ghost var rest := Content(bufs[1..]);
        Skip(bufs[0].Bytes(), rest, len);
        if len < bufLen {
          ContentAdvance(bufs, len);
          bufs := bufs[0 := bufs[0].(data := bufs[0].data + len)];
          len := 0;
        } else {
          len := len - bufLen;
          FreeFirst();
        }
      }
      assert Content(bufs)[0..] == Content(bufs);
    }

    /** The end of a turn in `ustream_write_pending`: the callback took the first bytes
        of the first buffer. */
    method Took(len: nat)
      requires Valid() && Content(bufs) != [] && 0 < len <= |bufs[0].Bytes()|
      modifies `bufs, `dataTail, `buffers, `dataBytes
      ensures Valid() && Content(bufs) == old(Content(bufs))[len..]
      ensures len == |old(bufs)[0].Bytes()| ==> bufs == Freed(old(bufs), minBuffers)
    {
      hide Content, Freed;
      HeadHolds(bufs, dataTail);
      var b := bufs[0];
      Skip(b.Bytes(), Content(bufs[1..]), len);
      dataBytes := dataBytes - len;
      if len < b.tail - b.data {
        ContentAdvance(bufs, len);
        bufs := bufs[0 := b.(data := b.data + len)];
      } else {
        assert Content(bufs[1..])[0..] == Content(bufs[1..]);
        FreeFirst();
      }
    }

    /** `ustream_free_buffers`: the counters keep their old values, so that the list
        is in order afterwards only if there was nothing to free. */
    method FreeBuffers()
      requires Valid()
      modifies `bufs, `dataTail
      ensures bufs == [] && dataTail == -1 && (Valid() <==> old(bufs) == [])
    {
      bufs, dataTail := [], -1;
    }

    /** Copies bytes behind the data of the `data_tail` buffer, where they fit. */
    method Fill(bytes: seq<Byte>)
      requires Valid() && 0 <= dataTail && bufs[dataTail].tail + |bytes| <= |bufs[dataTail].mem|
      modifies `bufs, `dataBytes
      ensures Valid() && Content(bufs) == old(Content(bufs)) + bytes
      ensures |bufs| == |old(bufs)| && bufs[dataTail].tail == old(bufs)[dataTail].tail + |bytes|
      ensures |bufs[dataTail].mem| == |old(bufs)[dataTail].mem|
      ensures forall i :: 0 <= i < |bufs| && i != dataTail ==> bufs[i] == old(bufs)[i]
    {
      hide Content;
      var b := bufs[dataTail];
      var b' := Buf(b.mem[..b.tail] + bytes + b.mem[b.tail + |bytes|..], b.data, b.tail + |bytes|);
      assert b'.Bytes() == b.Bytes() + bytes;
      ContentAppend(bufs, dataTail, b', bytes);
      bufs := bufs[dataTail := b'];
      dataBytes := dataBytes + |bytes|;
    }

    /** `ustream_write_buffered`: takes as many bytes as there may be room for. */
    method WriteBuffered(data: seq<Byte>) returns (wr: nat)
      requires Valid()
      modifies this
      ensures Valid() && wr <= |data| && Content(bufs) == old(Content(bufs)) + data[..wr]
      ensures wr < |data| ==>
              |bufs| == maxBuffers && bufs != [] && dataTail == |bufs| - 1 && bufs[dataTail].data == 0
              && bufs[dataTail].tail == |bufs[dataTail].mem|
    {
      hide Content;
      ghost var before := Content(bufs);
      wr := 0;
      while wr < |data|
        invariant Valid() && wr <= |data| && Content(bufs) == before + data[..wr]
      {
        var ok := PrepareBuf(|data| - wr);
        if !ok {
          return;
        }
        var b := bufs[dataTail];
        var n := if |b.mem| - b.tail > |data| - wr then |data| - wr else |b.mem| - b.tail;
        Further(data, wr, n);
        Fill(data[wr..wr + n]);
        wr := wr + n;
      }
    }

    /** The loop of `ustream_fill_read`: `data` are the bytes that the reader put
        behind the data of the `data_tail` buffer and of those after it. The source
        aborts when there is no room for them; then the result is false. */
    method FillRead(data: seq<Byte>) returns (ok: bool)
      requires Valid()
      modifies this
      ensures ok <==> 0 <= old(dataTail) && |data| <= Room(old(bufs)[old(dataTail)..])
      ensures ok ==> Valid() && Content(bufs) == old(Content(bufs)) + data
    {
      hide Content, Room;
      ghost var before := Content(bufs);
      if dataTail < 0 {
        return false;
      }
      var done := 0;
      while true
        invariant Valid() && 0 <= dataTail < |bufs| && 0 <= done <= |data|
        invariant Content(bufs) == before + data[..done]
        invariant done + Room(bufs[dataTail..]) == Room(old(bufs)[old(dataTail)..])
        decreases |bufs| - dataTail
      {
        var b := bufs[dataTail];
        var n := if |b.mem| - b.tail > |data| - done then |data| - done else |b.mem| - b.tail;
        Further(data, done, n);
        ghost var rest := bufs[dataTail + 1..];
        RoomStep(bufs, dataTail);
        Fill(data[done..done + n]);
        assert bufs[dataTail + 1..] == rest;
        RoomStep(bufs, dataTail);
        done := done + n;
        if done == |data| {
          assert data[..done] == data;
          return true;
        }
        if dataTail + 1 == |bufs| {
          return false;
        }
        dataTail := dataTail + 1;
      }
    }
  }

  /** The write callback of a stream: its answer to the n-th call, which offers these
      bytes and says whether there are more. It accepts a prefix of them, or reports
      an error with a negative number. */
  type Callback = (nat, seq<Byte>, bool) -> int

  ghost predicate Obedient(cb: Callback) { forall n, bytes, more :: cb(n, bytes, more) <= |bytes| }

  /** A call of the write callback. */
  datatype Offer = Offer(bytes: seq<Byte>, more: bool, answer: int)

  /** The calls while a chain is written, from the n-th on: a buffer is offered when
      the ones before it have been accepted whole. */
  ghost function Offers(cb: Callback, n: nat, bufs: seq<Buf>, least: int): seq<Offer>
    decreases |Content(bufs)|
  {
    if Content(bufs) == [] || bufs[0].Bytes() == [] then []
    else
      var o := Offer(bufs[0].Bytes(), |bufs| > 1, cb(n, bufs[0].Bytes(), |bufs| > 1));
      [o] + if o.answer == |o.bytes| then Offers(cb, n + 1, Freed(bufs, least), least) else []
  }

  /** The number of bytes accepted in all. */
  ghost function Taken(offers: seq<Offer>): nat {
    if offers == [] then 0 else (if offers[0].answer > 0 then offers[0].answer else 0) + Taken(offers[1..])
  }

  ghost predicate Failed(offers: seq<Offer>) { exists o :: o in offers && o.answer < 0 }

  ghost function FreedTail(bufs: seq<Buf>, dt: int, least: int): int {
    if dt > 0 then dt - 1 else if |bufs| > 1 || |bufs| - 1 < least then 0 else -1
  }

  lemma FreedShaped(bufs: seq<Buf>, dt: int, least: int)
    requires Shaped(bufs, dt) && bufs != []
    ensures Shaped(Freed(bufs, least), FreedTail(bufs, dt, least))
  {
    hide Content;
    assert bufs[0].Valid();
  }

  lemma NoOffers(cb: Callback, n: nat, bufs: seq<Buf>, least: int)
    requires Content(bufs) == []
    ensures var offers := Offers(cb, n, bufs, least);
            offers == [] && Taken(offers) == 0 && !Failed(offers)
  {
  }

  lemma OffersStep(cb: Callback, n: nat, bufs: seq<Buf>, dt: int, least: int)
    requires Shaped(bufs, dt) && Content(bufs) != [] && Obedient(cb)
    ensures bufs != [] && bufs[0].Bytes() != [] && cb(n, bufs[0].Bytes(), |bufs| > 1) <= |bufs[0].Bytes()|
    ensures var bytes := bufs[0].Bytes();
            var answer := cb(n, bytes, |bufs| > 1);
            var offers := Offers(cb, n, bufs, least);
            var rest := if answer == |bytes| then Offers(cb, n + 1, Freed(bufs, least), least) else [];
            && offers == [Offer(bytes, |bufs| > 1, answer)] + rest && offers[1..] == rest
            && Taken(offers) == (if answer > 0 then answer else 0) + Taken(rest)
            && (Failed(offers) <==> answer < 0 || Failed(rest))
            && (rest == [] ==> Taken(rest) == 0 && !Failed(rest))
  {
    hide Content, Freed;
    HeadHolds(bufs, dt);
    var bytes := bufs[0].Bytes();
    var o := Offer(bytes, |bufs| > 1, cb(n, bytes, |bufs| > 1));
    var rest := if o.answer == |bytes| then Offers(cb, n + 1, Freed(bufs, least), least) else [];
    assert ([o] + rest)[1..] == rest;
    assert o in [o] + rest;
  }

  /** What is accepted is no more than what is held. */
  lemma {:induction false} TakenFits(cb: Callback, n: nat, bufs: seq<Buf>, dt: int, least: int)
    requires Shaped(bufs, dt) && Obedient(cb)
    ensures Taken(Offers(cb, n, bufs, least)) <= |Content(bufs)|
    decreases |Content(bufs)|
  {
    hide Freed, Offers, Taken, Content, Shaped, FreedTail;
    if Content(bufs) == [] {
      NoOffers(cb, n, bufs, least);
    } else {
      HeadHolds(bufs, dt);
      OffersStep(cb, n, bufs, dt, least);
      if cb(n, bufs[0].Bytes(), |bufs| > 1) == |bufs[0].Bytes()| {
        FreedShaped(bufs, dt, least);
        TakenFits(cb, n + 1, Freed(bufs, least), FreedTail(bufs, dt, least), least);
      }
    }
  }

  /** The i-th call offers the bytes that follow those accepted before, and another
      call follows it exactly if it takes all that it offers and some bytes are left. */
  ghost predicate InPlace(cb: Callback, n: nat, offers: seq<Offer>, i: nat, content: seq<Byte>)
    requires i < |offers|
  {
    var o, before := offers[i], Taken(offers[..i]);
    && o.answer == cb(n + i, o.bytes, o.more) && o.bytes != []
    && before + |o.bytes| <= |content| && o.bytes == content[before..before + |o.bytes|]
    && (i + 1 < |offers| <==> o.answer == |o.bytes| && before + |o.bytes| < |content|)
  }

  lemma InPlaceBehind(cb: Callback, n: nat, o: Offer, rest: seq<Offer>, i: nat, content: seq<Byte>)
    requires 0 < i <= |rest| && o.answer == |o.bytes| && InPlace(cb, n + 1, rest, i - 1, content)
    ensures InPlace(cb, n, [o] + rest, i, o.bytes + content)
  {
    var offers := [o] + rest;
    assert offers[..i][1..] == rest[..i - 1];
    var before, size := Taken(rest[..i - 1]), |rest[i - 1].bytes|;
    assert (o.bytes + content)[|o.bytes| + before..|o.bytes| + before + size] == content[before..before + size];
  }

  lemma {:induction false} OffersTile(cb: Callback, n: nat, bufs: seq<Buf>, dt: int, least: int, i: nat)
    requires Shaped(bufs, dt) && Obedient(cb)
    requires i < |Offers(cb, n, bufs, least)|
    ensures InPlace(cb, n, Offers(cb, n, bufs, least), i, Content(bufs))
    ensures Offers(cb, n, bufs, least)[i].more <==> |bufs| - i > 1 || (|bufs| > 1 && least > 1)
    decreases i
  {
    hide Freed, InPlace, Content, Shaped, FreedTail, Offers, Taken, Failed, Obedient;
    if Content(bufs) == [] { NoOffers(cb, n, bufs, least); }
    HeadHolds(bufs, dt);
    OffersStep(cb, n, bufs, dt, least);
    var dt' := FreedTail(bufs, dt, least);
    var next, bytes := Freed(bufs, least), bufs[0].Bytes();
    var o := Offer(bytes, |bufs| > 1, cb(n, bytes, |bufs| > 1));
    var rest := Offers(cb, n, bufs, least)[1..];
    FreedShaped(bufs, dt, least);
    if i == 0 {
      if Content(next) == [] {
        NoOffers(cb, n + 1, next, least);
      } else {
        OffersStep(cb, n + 1, next, dt', least);
      }
      FirstInPlace(cb, n, o, rest, Content(next));
    } else {
      OffersTile(cb, n + 1, next, dt', least, i - 1);
      FreedSize(bufs, least);
      InPlaceBehind(cb, n, o, rest, i, Content(next));
    }
  }

  lemma FreedSize(bufs: seq<Buf>, least: int)
    requires bufs != []
    ensures |Freed(bufs, least)| == if |bufs| - 1 >= least then |bufs| - 1 else |bufs|
  {
  }

  lemma FirstInPlace(cb: Callback, n: nat, o: Offer, rest: seq<Offer>, content: seq<Byte>)
    requires o.answer == cb(n, o.bytes, o.more) && o.bytes != []
    requires rest != [] <==> o.answer == |o.bytes| && content != []
    ensures InPlace(cb, n, [o] + rest, 0, o.bytes + content)
  {
    assert ([o] + rest)[..0] == [];
    assert (o.bytes + content)[..|o.bytes|] == o.bytes;
  }

  class Ustream {
    const r: BufList
    const w: BufList
    var writeError: bool
    var blockedFull: bool
    /** The bytes the write callback has accepted, and the bytes that writers were
        told had been accepted. */
    ghost var sent: seq<Byte>
    ghost var promised: seq<Byte>

    /** Until a write error, what was promised is what was sent and what is held. */
    ghost predicate Valid()
      reads this, r, w
    {
      && r != w && r.Valid()
      && (!writeError ==> w.Valid() && promised == sent + Content(w.bufs))
    }

    constructor (r: BufList, w: BufList)
      requires r != w && r.Valid() && w.Valid() && w.bufs == []
      ensures Valid() && this.r == r && this.w == w && !writeError && promised == []
    {
      this.r, this.w, writeError, blockedFull := r, w, false, false;
      sent, promised := [], [];
    }

    // ----- reading

    /** `ustream_reserve`: the room offered to the reader. */
    method Reserve(len: int) returns (maxlen: nat)
      requires Valid()
      modifies r, `blockedFull
      ensures Valid() && Content(r.bufs) == old(Content(r.bufs))
      ensures maxlen > 0 ==> 0 <= r.dataTail && maxlen == |r.bufs[r.dataTail].mem| - r.bufs[r.dataTail].tail
      ensures blockedFull == (maxlen == 0 || old(blockedFull))
      ensures maxlen == 0 && 0 < len ==>
                && |r.bufs| == r.maxBuffers && r.bufs != [] && r.dataTail == |r.bufs| - 1
                && r.bufs[r.dataTail].data == 0 && r.bufs[r.dataTail].tail == |r.bufs[r.dataTail].mem|
    {
      var ok := r.PrepareBuf(len);
      if !ok {
        blockedFull := true;
        return 0;
      }
      maxlen := |r.bufs[r.dataTail].mem| - r.bufs[r.dataTail].tail;
    }

    /** `ustream_get_read_buf`: a prefix of the unread bytes, empty only if there are none. */
    method GetReadBuf() returns (bytes: seq<Byte>)
      requires Valid()
      ensures bytes <= Content(r.bufs) && (bytes == [] ==> Content(r.bufs) == [])
      ensures r.bufs != [] ==> bytes == r.bufs[0].mem[r.bufs[0].data..r.bufs[0].tail]
    {
      if r.bufs == [] {
        return [];
      }
      if Content(r.bufs) != [] { HeadHolds(r.bufs, r.dataTail); }
      bytes := r.bufs[0].Bytes();
    }

    /** `ustream_consume`; the source aborts when there are fewer bytes. */
    method Consume(len: nat) returns (ok: bool)
      requires Valid()
      modifies r, `blockedFull
      ensures ok <==> len <= old(|Content(r.bufs)|)
      ensures ok ==> Valid() && Content(r.bufs) == old(Content(r.bufs))[len..]
      ensures blockedFull == (if ok && 0 < len then false else old(blockedFull))
      ensures !ok || len == 0 ==> r.bufs == old(r.bufs)
    {
      if len == 0 {
        return true;
      }
      if r.dataBytes < len {
        return false;
      }
      r.Drop(len);
      blockedFull := false;
      return true;
    }

    // ----- writing

    /** `ustream_write`: what the callback takes at once was sent, the rest is held as
        far as there may be room for it. */
    method Write(data: seq<Byte>, more: bool, cb: Callback) returns (wr: int)
      requires Valid() && Obedient(cb)
      modifies this, w
      ensures Valid() && wr <= |data| && r.bufs == old(r.bufs)
      ensures old(writeError) ==> wr == 0 && sent == old(sent) && promised == old(promised) && w.bufs == old(w.bufs)
      ensures !old(writeError) ==>
                var asked := old(Content(w.bufs)) == [];
                var answer := cb(0, data, more);
                && sent == old(sent) + (if asked && 0 <= answer then data[..answer] else [])
                && (writeError <==> asked && answer < 0)
                && (writeError ==> wr == answer && w.bufs == old(w.bufs) && promised == old(promised))
                && (!writeError ==> 0 <= wr && promised == old(promised) + data[..wr])
      ensures !writeError && wr < |data| ==>
                && |w.bufs| == w.maxBuffers && w.bufs != [] && w.dataTail == |w.bufs| - 1
                && w.bufs[w.dataTail].data == 0 && w.bufs[w.dataTail].tail == |w.bufs[w.dataTail].mem|
    {
      hide Content;
      if writeError {
        return 0;
      }
      wr := 0;
      if w.dataBytes == 0 {
        wr := cb(0, data, more);
        if wr == |data| {
          assert data[..wr] == data;
          Direct(data);
          return;
        }
        if wr < 0 {
          writeError := true;
          return;
        }
        Direct(data[..wr]);
      }
      var n := Hold(data[wr..]);
      Further(data, wr, n);
      wr := wr + n;
    }

    /** The buffered part of a write. */
    method Hold(data: seq<Byte>) returns (n: nat)
      requires Valid() && !writeError
      modifies `promised, w
      ensures Valid() && n <= |data| && promised == old(promised) + data[..n]
      ensures n < |data| ==>
                && |w.bufs| == w.maxBuffers && w.bufs != [] && w.dataTail == |w.bufs| - 1
                && w.bufs[w.dataTail].data == 0 && w.bufs[w.dataTail].tail == |w.bufs[w.dataTail].mem|
    {
      hide Content;
      n := w.WriteBuffered(data);
      promised := promised + data[..n];
    }

    /** One turn of the loop of `ustream_write_pending`: the first buffer is offered, and
        `full` says that it was taken whole. */
    method Turn(cb: Callback, n: nat) returns (len: int, full: bool)
      requires Valid() && Obedient(cb) && !writeError && Content(w.bufs) != []
      modifies this, w
      ensures Valid() && w.Valid() && r.bufs == old(r.bufs) && promised == old(promised)
      ensures len <= |old(Content(w.bufs))| && (writeError <==> len < 0) && (full ==> 0 < len)
      ensures len <= 0 ==> sent == old(sent) && w.bufs == old(w.bufs)
      ensures 0 < len ==>
                && sent == old(sent) + old(Content(w.bufs))[..len]
                && Content(w.bufs) == old(Content(w.bufs))[len..]
      ensures var offers, rest := old(Offers(cb, n, w.bufs, w.minBuffers)), Offers(cb, n + 1, w.bufs, w.minBuffers);
              && Taken(offers) == (if len > 0 then len else 0) + (if full then Taken(rest) else 0)
              && (Failed(offers) <==> len < 0 || (full && Failed(rest)))
    {
      hide Content, Offers, Freed, Taken, Failed, Shaped, Obedient;
      HeadHolds(w.bufs, w.dataTail);
      OffersStep(cb, n, w.bufs, w.dataTail, w.minBuffers);
      var b := w.bufs[0];
      var maxlen := b.tail - b.data;
      len := cb(n, b.Bytes(), |w.bufs| > 1);
      full := false;
      if len < 0 {
        writeError := true;
        return;
      }
      if len == 0 {
        return;
      }
      Split(sent, Content(w.bufs), len);
      sent := sent + Content(w.bufs)[..len];
      w.Took(len);
      full := len == maxlen;
    }

    /** `ustream_write_pending`: hands held bytes to the callback, first in first out.
        What it accepts is sent and leaves the chain, and a negative answer is the only
        cause of a write error. `wr` is what `notify_write` is told. */
    method WritePending(cb: Callback) returns (empty: bool, wr: nat)
      requires Valid() && Obedient(cb)
      modifies this, w
      ensures Valid() && r.bufs == old(r.bufs) && promised == old(promised)
      ensures old(writeError) ==> !empty && writeError && sent == old(sent) && w.bufs == old(w.bufs)
      ensures !old(writeError) ==>
                var offers := old(Offers(cb, 0, w.bufs, w.minBuffers));
                && wr == Taken(offers) <= |old(Content(w.bufs))|
                && sent == old(sent) + old(Content(w.bufs))[..wr]
                && Content(w.bufs) == old(Content(w.bufs))[wr..]
                && (writeError <==> Failed(offers))
                && (empty <==> Content(w.bufs) == [])
    {
      hide Content, Offers, Freed, Taken, Failed, Shaped, Obedient;
      wr := 0;
      if writeError {
        return false, 0;
      }
      ghost var before, all, offers := sent, Content(w.bufs), Offers(cb, 0, w.bufs, w.minBuffers);
      var n := 0;
      TakenFits(cb, 0, w.bufs, w.dataTail, w.minBuffers);
      while w.dataBytes > 0
        invariant Valid() && !writeError && promised == old(promised) && r.bufs == old(r.bufs)
        invariant wr <= |all| && Content(w.bufs) == all[wr..] && sent == before + all[..wr]
        invariant wr + Taken(Offers(cb, n, w.bufs, w.minBuffers)) == Taken(offers)
        invariant Failed(Offers(cb, n, w.bufs, w.minBuffers)) <==> Failed(offers)
        decreases w.dataBytes
      {
        var len, full := Turn(cb, n);
        Onward(all, wr, len);
        n := n + 1;
        if len <= 0 {
          break;
        }
        wr := wr + len;
        if !full {
          break;
        }
      }
      if w.dataBytes == 0 { NoOffers(cb, n, w.bufs, w.minBuffers); }
      return w.dataBytes == 0, wr;
    }

    /** Bytes the callback took while none were held. */
    ghost method Direct(bytes: seq<Byte>)
      requires Valid() && !writeError && Content(w.bufs) == []
      modifies `sent, `promised
      ensures Valid() && sent == old(sent) + bytes && promised == old(promised) + bytes
    {
      hide Content, Shaped;
      assert sent + [] == sent && sent + bytes + [] == sent + bytes;
      sent, promised := sent + bytes, promised + bytes;
    }
  }
}
