/** The chains of iterators that hang on the entries of a safe_list: each entry
    points at the first iterator parked on it, each iterator at the next one and
    back at the pointer that points at it. Told on snapshots of the fields. */
module SafeChain {

  class Entry {
    var i: Iter?

    constructor ()
      ensures i == null
    {
      i := null;
    }
  }

  /** Where the pointer to an iterator is stored: the source's `**head`. */
  datatype Slot = OfEntry(entry: Entry) | OfIter(iter: Iter)

  class Iter {
    var head: MaybeSlot
    var nextI: Iter?
    var next: Entry?

    constructor ()
    {
      head, nextI, next := NoSlot, null, null;
    }
  }

  datatype MaybeSlot = NoSlot | At(slot: Slot)

  datatype Parked = Parked(head: MaybeSlot, nextI: Iter?, next: Entry?)

  /** The fields of all entries and iterators concerned. */
  datatype Mem = Mem(first: map<Entry, Iter?>, its: map<Iter, Parked>)

  type Chains = map<Entry, seq<Iter>>

  ghost function Snap(es: set<Entry>, its: set<Iter>): (m: Mem)
    reads es`i, its`head, its`nextI, its`next
    ensures m.first.Keys == es && m.its.Keys == its
  {
    Mem(map e | e in es :: e.i, map j | j in its :: Parked(j.head, j.nextI, j.next))
  }

  ghost function Nth(c: seq<Iter>, k: nat): Iter? { if k < |c| then c[k] else null }

  /** The pointers spell out the chain `c` of the entry `e`. */
  ghost predicate Chain(m: Mem, e: Entry, c: seq<Iter>) {
    && e in m.first && m.first[e] == Nth(c, 0)
    && forall k :: 0 <= k < |c| ==> c[k] in m.its && m.its[c[k]] == Link(e, c, k)
  }

  ghost function Link(e: Entry, c: seq<Iter>, k: nat): Parked
    requires k < |c|
  {
    Parked(At(if k == 0 then OfEntry(e) else OfIter(c[k - 1])), Nth(c, k + 1), e)
  }

  /** No iterator is on two chains, or twice on one. */
  ghost predicate Unique(ch: Chains) {
    forall e, e', k, k' :: e in ch && e' in ch && 0 <= k < |ch[e]| && 0 <= k' < |ch[e']| && ch[e][k] == ch[e'][k'] ==>
      e == e' && k == k'
  }

  ghost predicate Threaded(m: Mem, ch: Chains) {
    Unique(ch) && forall e :: e in ch ==> Chain(m, e, ch[e])
  }

  /** Every iterator is on the chain of its saved next entry. */
  ghost predicate Homed(m: Mem, ch: Chains) { forall j :: j in m.its ==> HomedAt(m, ch, j) }

  ghost predicate HomedAt(m: Mem, ch: Chains, j: Iter)
    requires j in m.its
  {
    m.its[j].next != null && m.its[j].next in ch && j in ch[m.its[j].next]
  }

  ghost predicate Sound(m: Mem, ch: Chains) { Threaded(m, ch) && Homed(m, ch) }

  lemma FirstSound(m: Mem, ch: Chains, n: Entry)
    requires Sound(m, ch) && n in ch
    ensures n in m.first && m.first[n] == Nth(ch[n], 0) && (m.first[n] != null ==> m.first[n] in m.its)
  {
    assert Chain(m, n, ch[n]);
  }

  lemma Whereabouts(m: Mem, ch: Chains, j: Iter) returns (e: Entry, k: nat)
    requires Sound(m, ch) && j in m.its
    ensures e in ch && k < |ch[e]| && ch[e][k] == j && Chain(m, e, ch[e]) && e == m.its[j].next
    ensures forall a, b :: 0 <= a < b < |ch[e]| ==> ch[e][a] != ch[e][b]
  {
    assert HomedAt(m, ch, j);
    e := m.its[j].next;
    var i :| 0 <= i < |ch[e]| && ch[e][i] == j;
    k := i;
  }

  /** An iterator that is not active is on no chain. */
  lemma OnNone(m: Mem, ch: Chains, j: Iter)
    requires Threaded(m, ch) && j !in m.its
    ensures forall e :: e in ch ==> j !in ch[e]
  {
    forall e | e in ch ensures j !in ch[e] { assert Chain(m, e, ch[e]); }
  }

  /** The snapshots agree on the chain. */
  lemma KeepChain(m: Mem, m': Mem, e: Entry, c: seq<Iter>)
    requires Chain(m, e, c) && e in m'.first && m'.first[e] == m.first[e]
    requires forall k :: 0 <= k < |c| ==> c[k] in m'.its && m'.its[c[k]] == m.its[c[k]]
    ensures Chain(m', e, c)
  {
  }

  // ----- parking an iterator

  ghost function Park(ch: Chains, n: Entry, j: Iter): (r: Chains)
    ensures r.Keys == ch.Keys
    requires n in ch
  {
    ch[n := [j] + ch[n]]
  }

  lemma {:induction false} ParkChain(m: Mem, m': Mem, n: Entry, c: seq<Iter>, j: Iter)
    requires Chain(m, n, c) && j !in c && (forall k :: 0 < k < |c| ==> c[k] != c[0])
    requires n in m'.first && m'.first[n] == j
    requires j in m'.its && m'.its[j] == Parked(At(OfEntry(n)), m.first[n], n)
    requires c != [] ==> c[0] in m'.its && m'.its[c[0]] == m.its[c[0]].(head := At(OfIter(j)))
    requires forall k :: 0 < k < |c| ==> c[k] in m'.its && m'.its[c[k]] == m.its[c[k]]
    ensures Chain(m', n, [j] + c)
  {
    var c' := [j] + c;
    forall k | 0 <= k < |c'| ensures c'[k] in m'.its && m'.its[c'[k]] == Link(n, c', k) {
      if 0 < k {
        assert c'[k] == c[k - 1];
        assert m.its[c[k - 1]] == Link(n, c, k - 1);
      }
    }
  }

  lemma ParkUnique(ch: Chains, n: Entry, j: Iter)
    requires Unique(ch) && n in ch && forall e :: e in ch ==> j !in ch[e]
    ensures Unique(Park(ch, n, j))
  {
    var ch' := Park(ch, n, j);
    forall e, e', k, k' | e in ch' && e' in ch' && 0 <= k < |ch'[e]| && 0 <= k' < |ch'[e']| && ch'[e][k] == ch'[e'][k']
      ensures e == e' && k == k'
    {
      assert e == n && k > 0 ==> ch'[e][k] == ch[e][k - 1];
      assert e' == n && k' > 0 ==> ch'[e'][k'] == ch[e'][k' - 1];
    }
  }

  /** What parking does to the fields. */
  ghost predicate ParkedAt(m: Mem, m': Mem, n: Entry, j: Iter)
    requires n in m.first
  {
    && m'.first == m.first[n := j] && m'.its.Keys == m.its.Keys + {j}
    && m'.its[j] == Parked(At(OfEntry(n)), m.first[n], n)
    && forall x :: x in m.its ==>
         m'.its[x] == if x == m.first[n] then m.its[x].(head := At(OfIter(j))) else m.its[x]
  }

  lemma ParksThreaded(m: Mem, m': Mem, ch: Chains, n: Entry, j: Iter)
    requires Threaded(m, ch) && n in ch && n in m.first && j !in m.its && ParkedAt(m, m', n, j)
    ensures Threaded(m', Park(ch, n, j))
  {
    OnNone(m, ch, j);
    ParkUnique(ch, n, j);
    var ch' := Park(ch, n, j);
    forall e | e in ch' ensures Chain(m', e, ch'[e]) {
      assert Chain(m, e, ch[e]);
      if e == n {
        ParkChain(m, m', n, ch[n], j);
      } else {
        KeepChain(m, m', e, ch[e]);
      }
    }
  }

  lemma ParksHomed(m: Mem, m': Mem, ch: Chains, n: Entry, j: Iter)
    requires Homed(m, ch) && n in ch && n in m.first && ParkedAt(m, m', n, j) && j !in m.its
    ensures Homed(m', Park(ch, n, j))
  {
    var ch' := Park(ch, n, j);
    forall x | x in m'.its ensures HomedAt(m', ch', x) {
      if x == j {
        assert ch'[n][0] == j;
      } else {
        assert HomedAt(m, ch, x);
        var e := m.its[x].next;
        assert m'.its[x].next == e && x in ch[e];
        assert e == n ==> ch'[n] == [j] + ch[n];
      }
    }
  }

  lemma Parks(m: Mem, m': Mem, ch: Chains, n: Entry, j: Iter)
    requires Sound(m, ch) && n in ch && n in m.first && j !in m.its && ParkedAt(m, m', n, j)
    ensures Sound(m', Park(ch, n, j))
  {
    hide Threaded, Homed, ParkedAt, Park;
    ParksThreaded(m, m', ch, n, j);
    ParksHomed(m, m', ch, n, j);
  }

  // ----- taking an iterator off its chain

  ghost function Unpark(ch: Chains, e: Entry, k: nat): (r: Chains)
    ensures r.Keys == ch.Keys
    requires e in ch && k < |ch[e]|
  {
    ch[e := ch[e][..k] + ch[e][k + 1..]]
  }

  /** `m'` is `m` after `*j->head = j->next_i` and the repair of the back pointer,
      for the iterator at position `k` of the chain `c` of `e`. */
  ghost predicate Unlinked(m: Mem, m': Mem, e: Entry, c: seq<Iter>, k: nat)
    requires Chain(m, e, c) && k < |c|
  {
    && m'.its.Keys == m.its.Keys
    && m'.first == (if k == 0 then m.first[e := Nth(c, 1)] else m.first)
    && (k > 0 ==> m'.its[c[k - 1]] == m.its[c[k - 1]].(nextI := Nth(c, k + 1)))
    && (k + 1 < |c| ==> m'.its[c[k + 1]] == m.its[c[k + 1]].(head := m.its[c[k]].head))
    && forall x :: x in m.its && !(k > 0 && x == c[k - 1]) && !(k + 1 < |c| && x == c[k + 1]) ==> m'.its[x] == m.its[x]
  }

  lemma UnparkChain(m: Mem, m': Mem, e: Entry, c: seq<Iter>, k: nat)
    requires Chain(m, e, c) && k < |c| && Unlinked(m, m', e, c, k)
    requires forall a, b :: 0 <= a < b < |c| ==> c[a] != c[b]
    ensures Chain(m', e, c[..k] + c[k + 1..])
  {
    var c' := c[..k] + c[k + 1..];
    forall i | 0 <= i < |c'| ensures c'[i] in m'.its && m'.its[c'[i]] == Link(e, c', i) {
      var a := if i < k then i else i + 1;
      assert c'[i] == c[a] && m.its[c[a]] == Link(e, c, a);
      assert i > 0 ==> c'[i - 1] == c[if i - 1 < k then i - 1 else i];
    }
  }

  lemma UnparkUnique(ch: Chains, e: Entry, k: nat)
    requires Unique(ch) && e in ch && k < |ch[e]|
    ensures Unique(Unpark(ch, e, k))
  {
    var ch', c := Unpark(ch, e, k), ch[e];
    assert forall i :: 0 <= i < |ch'[e]| ==> ch'[e][i] == c[if i < k then i else i + 1];
  }

  /** The snapshot without the iterator. */
  ghost function Less(m: Mem, j: Iter): Mem { Mem(m.first, m.its - {j}) }

  lemma UnparksThreaded(m: Mem, m': Mem, ch: Chains, e: Entry, k: nat)
    requires Threaded(m, ch) && e in ch && k < |ch[e]| && Unlinked(m, m', e, ch[e], k)
    ensures Threaded(m', Unpark(ch, e, k))
  {
    UnparkUnique(ch, e, k);
    var ch' := Unpark(ch, e, k);
    forall x | x in ch' ensures Chain(m', x, ch'[x]) {
      if x == e {
        UnparkChain(m, m', e, ch[e], k);
      } else {
        KeepChain(m, m', x, ch[x]);
      }
    }
  }

  lemma GoneFrom(ch: Chains, e: Entry, k: nat)
    requires Unique(ch) && e in ch && k < |ch[e]|
    ensures forall x :: x in ch ==> ch[e][k] !in Unpark(ch, e, k)[x]
  {
    var ch', c := Unpark(ch, e, k), ch[e];
    assert forall i :: 0 <= i < |ch'[e]| ==> ch'[e][i] == c[if i < k then i else i + 1];
  }

  lemma LessThreaded(m: Mem, ch: Chains, j: Iter)
    requires Threaded(m, ch) && forall x :: x in ch ==> j !in ch[x]
    ensures Threaded(Less(m, j), ch)
  {
    forall x | x in ch ensures Chain(Less(m, j), x, ch[x]) {
      KeepChain(m, Less(m, j), x, ch[x]);
    }
  }

  lemma UnparksHomed(m: Mem, m': Mem, ch: Chains, e: Entry, k: nat)
    requires Homed(m, ch) && e in ch && k < |ch[e]| && m'.its.Keys == m.its.Keys
    requires forall x :: x in m.its ==> m'.its[x].next == m.its[x].next
    ensures Homed(Less(m', ch[e][k]), Unpark(ch, e, k))
  {
    var ch', c, j := Unpark(ch, e, k), ch[e], ch[e][k];
    forall x | x in Less(m', j).its ensures HomedAt(Less(m', j), ch', x) {
      assert HomedAt(m, ch, x);
      var n := m.its[x].next;
      if n == e {
        var i :| 0 <= i < |c| && c[i] == x;
        assert ch'[e][if i < k then i else i - 1] == x;
      }
    }
  }

  lemma NextKept(m: Mem, m': Mem, e: Entry, c: seq<Iter>, k: nat)
    requires Chain(m, e, c) && k < |c| && Unlinked(m, m', e, c, k)
    ensures forall x :: x in m.its ==> m'.its[x].next == m.its[x].next
  {
  }

  lemma Unparks(m: Mem, m': Mem, ch: Chains, e: Entry, k: nat)
    requires Sound(m, ch) && e in ch && k < |ch[e]| && Chain(m, e, ch[e]) && Unlinked(m, m', e, ch[e], k)
    ensures Sound(Less(m', ch[e][k]), Unpark(ch, e, k))
  {
    hide Unique, Chain, Unlinked, Homed, Unpark;
    UnparksThreaded(m, m', ch, e, k);
    GoneFrom(ch, e, k);
    LessThreaded(m', Unpark(ch, e, k), ch[e][k]);
    NextKept(m, m', e, ch[e], k);
    assert m'.its.Keys == m.its.Keys by { KeysKept(m, m', e, ch[e], k); }
    UnparksHomed(m, m', ch, e, k);
  }

  lemma KeysKept(m: Mem, m': Mem, e: Entry, c: seq<Iter>, k: nat)
    requires Chain(m, e, c) && k < |c| && Unlinked(m, m', e, c, k)
    ensures m'.its.Keys == m.its.Keys
  {
  }

  // ----- handing the chain of a deleted entry on

  ghost function Splice(ch: Chains, x: Entry, n: Entry): (r: Chains)
    ensures r.Keys == ch.Keys - {x}
    requires x in ch && n in ch && x != n
  {
    (ch - {x})[n := ch[x] + ch[n]]
  }

  /** `m'` is `m` after all iterators of `x` were told the new entry `n` and the
      two chains were joined. */
  ghost predicate Spliced(m: Mem, m': Mem, ch: Chains, x: Entry, n: Entry)
    requires Threaded(m, ch) && x in ch && n in ch && x != n
  {
    var c, d := ch[x], ch[n];
    && m'.its.Keys == m.its.Keys && m'.first.Keys == m.first.Keys
    && (forall e :: e in m.first && e != x && e != n ==> m'.first[e] == m.first[e])
    && m'.first[n] == Nth(c + d, 0)
    && (forall k :: 0 <= k < |c| ==> m'.its[c[k]] == Link(n, c + d, k))
    && (d != [] && c != [] ==> m'.its[d[0]] == m.its[d[0]].(head := At(OfIter(c[|c| - 1]))))
    && (forall j :: j in m.its && j !in c && !(c != [] && d != [] && j == d[0]) ==> m'.its[j] == m.its[j])
  }

  /** The same, field by field. */
  ghost predicate SplicedFields(m: Mem, m': Mem, c: seq<Iter>, x: Entry, n: Entry)
    requires c != [] && n in m.first
  {
    && m'.its.Keys == m.its.Keys && m'.first.Keys == m.first.Keys
    && (forall e :: e in m.first ==> m'.first[e] == if e == n then c[0] else if e == x then null else m.first[e])
    && forall j :: j in m.its ==> m'.its[j] == Parked(
         if j == c[0] then At(OfEntry(n)) else if j == m.first[n] then At(OfIter(c[|c| - 1])) else m.its[j].head,
         if j == c[|c| - 1] then m.first[n] else m.its[j].nextI,
         if j in c then n else m.its[j].next)
  }

  lemma FieldsSplice(m: Mem, m': Mem, ch: Chains, x: Entry, n: Entry)
    requires Threaded(m, ch) && x in ch && n in ch && x != n && n in m.first
    requires if ch[x] == [] then m' == m else SplicedFields(m, m', ch[x], x, n)
    ensures Spliced(m, m', ch, x, n)
  {
    var c, d := ch[x], ch[n];
    assert Chain(m, x, c) && Chain(m, n, d);
    if c == [] {
      assert c + d == d;
    } else {
      forall k | 0 <= k < |c| ensures m'.its[c[k]] == Link(n, c + d, k) {
        assert m.its[c[k]] == Link(x, c, k);
        ChainApart(ch, x, n, k);
      }
    }
  }

  /** What a deletion may rely on, field by field. */
  lemma BeforeSplice(m: Mem, ch: Chains, x: Entry, n: Entry)
    requires Sound(m, ch) && x in ch && n in ch && x != n
    ensures x in m.first && n in m.first && m.first[x] == Nth(ch[x], 0)
    ensures forall k :: 0 <= k < |ch[x]| ==> ch[x][k] in m.its && m.its[ch[x][k]].nextI == Nth(ch[x], k + 1)
    ensures m.first[n] != null ==> m.first[n] in m.its && m.first[n] !in ch[x]
  {
    assert Chain(m, x, ch[x]) && Chain(m, n, ch[n]);
    forall k | 0 <= k < |ch[x]| ensures m.its[ch[x][k]] == Link(x, ch[x], k) {}
  }

  lemma ChainApart(ch: Chains, x: Entry, n: Entry, k: int)
    requires Unique(ch) && x in ch && n in ch && x != n && 0 <= k < |ch[x]|
    ensures 0 < k ==> ch[x][k] != ch[x][0]
    ensures k < |ch[x]| - 1 ==> ch[x][k] != ch[x][|ch[x]| - 1]
    ensures ch[n] != [] ==> ch[x][k] != ch[n][0]
  {
  }

  lemma SpliceUnique(ch: Chains, x: Entry, n: Entry)
    requires Unique(ch) && x in ch && n in ch && x != n
    ensures Unique(Splice(ch, x, n))
  {
    var ch', c, d := Splice(ch, x, n), ch[x], ch[n];
    assert forall i :: 0 <= i < |ch'[n]| ==> ch'[n][i] == if i < |c| then c[i] else d[i - |c|];
  }

  lemma {:induction false} JoinChain(m: Mem, m': Mem, n: Entry, c: seq<Iter>, d: seq<Iter>)
    requires Chain(m, n, d) && n in m'.first && m'.first[n] == Nth(c + d, 0) && m'.its.Keys == m.its.Keys
    requires forall k :: 0 <= k < |c| ==> c[k] in m.its && m'.its[c[k]] == Link(n, c + d, k)
    requires d != [] ==> m'.its[d[0]] == if c == [] then m.its[d[0]] else m.its[d[0]].(head := At(OfIter(c[|c| - 1])))
    requires forall i :: 0 < i < |d| ==> m'.its[d[i]] == m.its[d[i]]
    ensures Chain(m', n, c + d)
  {
    var c' := c + d;
    forall k | 0 <= k < |c'| ensures c'[k] in m'.its && m'.its[c'[k]] == Link(n, c', k) {
      if k < |c| {
        assert c'[k] == c[k];
      } else {
        var i := k - |c|;
        assert c'[k] == d[i] && m.its[d[i]] == Link(n, d, i);
        assert Nth(c', k + 1) == Nth(d, i + 1);
        assert k > 0 ==> c'[k - 1] == if i == 0 then c[|c| - 1] else d[i - 1];
      }
    }
  }

  lemma Apart(ch: Chains, x: Entry, n: Entry, i: int)
    requires Unique(ch) && x in ch && n in ch && x != n && 0 <= i < |ch[n]|
    ensures ch[n][i] !in ch[x] && (0 < i ==> ch[n][i] != ch[n][0])
  {
  }

  lemma SpliceChain(m: Mem, m': Mem, ch: Chains, x: Entry, n: Entry)
    requires Threaded(m, ch) && x in ch && n in ch && x != n && Spliced(m, m', ch, x, n)
    ensures Chain(m', n, ch[x] + ch[n])
  {
    hide Unique;
    var c, d := ch[x], ch[n];
    assert Chain(m, x, c) && Chain(m, n, d);
    forall i | 0 <= i < |d| ensures d[i] !in c && (0 < i ==> d[i] != d[0]) {
      Apart(ch, x, n, i);
    }
    hide Threaded;
    JoinChain(m, m', n, c, d);
  }

  lemma SplicesThreaded(m: Mem, m': Mem, ch: Chains, x: Entry, n: Entry)
    requires Threaded(m, ch) && x in ch && n in ch && x != n && Spliced(m, m', ch, x, n)
    ensures Threaded(m', Splice(ch, x, n))
  {
    SpliceUnique(ch, x, n);
    var ch' := Splice(ch, x, n);
    forall e | e in ch' ensures Chain(m', e, ch'[e]) {
      if e == n {
        SpliceChain(m, m', ch, x, n);
      } else {
        KeepChain(m, m', e, ch[e]);
      }
    }
  }

  /** The iterators of `x`, and no others, are sent to `n`. */
  lemma SplicesNext(m: Mem, m': Mem, ch: Chains, x: Entry, n: Entry, j: Iter)
    requires Sound(m, ch) && x in ch && n in ch && x != n && Spliced(m, m', ch, x, n) && j in m.its
    ensures HomedAt(m, ch, j)
    ensures j in m'.its && m'.its[j].next == if m.its[j].next == x then n else m.its[j].next
  {
    var e, k := Whereabouts(m, ch, j);
    if e == x {
      assert m'.its[ch[x][k]] == Link(n, ch[x] + ch[n], k);
    } else {
      assert j !in ch[x] by { OffChain(ch, x, e, k); }
    }
  }

  lemma OffChain(ch: Chains, x: Entry, e: Entry, k: nat)
    requires Unique(ch) && x in ch && e in ch && x != e && k < |ch[e]|
    ensures ch[e][k] !in ch[x]
  {
  }

  lemma SplicesHomed(m: Mem, m': Mem, ch: Chains, x: Entry, n: Entry)
    requires Sound(m, ch) && x in ch && n in ch && x != n && Spliced(m, m', ch, x, n)
    ensures Homed(m', Splice(ch, x, n))
  {
    hide Spliced, Threaded, Homed;
    var ch' := Splice(ch, x, n);
    SplicesKeys(m, m', ch, x, n);
    assert Homed(m', ch') by {
      forall j | j in m'.its ensures HomedAt(m', ch', j) {
        SplicesNext(m, m', ch, x, n, j);
        MovedHome(m, m', ch, x, n, j);
      }
      AllHomed(m', ch');
    }
  }

  lemma AllHomed(m: Mem, ch: Chains)
    requires forall j :: j in m.its ==> HomedAt(m, ch, j)
    ensures Homed(m, ch)
  {
  }

  lemma SplicesKeys(m: Mem, m': Mem, ch: Chains, x: Entry, n: Entry)
    requires Threaded(m, ch) && x in ch && n in ch && x != n && Spliced(m, m', ch, x, n)
    ensures m'.its.Keys == m.its.Keys
  {
  }

  lemma MovedHome(m: Mem, m': Mem, ch: Chains, x: Entry, n: Entry, j: Iter)
    requires x in ch && n in ch && x != n && j in m.its && j in m'.its && HomedAt(m, ch, j)
    requires m'.its[j].next == if m.its[j].next == x then n else m.its[j].next
    ensures HomedAt(m', Splice(ch, x, n), j)
  {
    assert Splice(ch, x, n)[n] == ch[x] + ch[n];
  }

  lemma Splices(m: Mem, m': Mem, ch: Chains, x: Entry, n: Entry)
    requires Sound(m, ch) && x in ch && n in ch && x != n && Spliced(m, m', ch, x, n)
    ensures Sound(m', Splice(ch, x, n))
  {
    hide Threaded, Homed, Spliced, Splice;
    SplicesThreaded(m, m', ch, x, n);
    SplicesHomed(m, m', ch, x, n);
  }

  /** An entry without a chain may be dropped from the snapshot. */
  lemma DropEntry(m: Mem, ch: Chains, x: Entry)
    requires Sound(m, ch) && x !in ch
    ensures Sound(Mem(m.first - {x}, m.its), ch)
  {
    var m' := Mem(m.first - {x}, m.its);
    forall e | e in ch ensures Chain(m', e, ch[e]) { KeepChain(m, m', e, ch[e]); }
    forall j | j in m'.its ensures HomedAt(m', ch, j) { assert HomedAt(m, ch, j); }
  }

  lemma NewUnique(ch: Chains, x: Entry)
    requires Unique(ch) && x !in ch
    ensures Unique(ch[x := []])
  {
    var ch' := ch[x := []];
    assert |ch'[x]| == 0 && forall e :: e in ch' && e != x ==> ch'[e] == ch[e];
  }

  /** A new entry comes with an empty chain. */
  lemma NewThreaded(m: Mem, m': Mem, ch: Chains, x: Entry)
    requires Threaded(m, ch) && x !in ch && m'.its == m.its && m'.first == m.first[x := null]
    ensures Threaded(m', ch[x := []])
  {
    var ch' := ch[x := []];
    NewUnique(ch, x);
    hide Unique;
    forall e | e in ch' ensures Chain(m', e, ch'[e]) {
      if e == x {
        assert ch'[e] == [];
      } else {
        assert Chain(m, e, ch[e]);
        hide Chain;
        KeepChainFirst(m, m', e, ch[e]);
      }
    }
  }

  lemma KeepChainFirst(m: Mem, m': Mem, e: Entry, c: seq<Iter>)
    requires Chain(m, e, c) && m'.its == m.its && e in m'.first && m'.first[e] == m.first[e]
    ensures Chain(m', e, c)
  {
  }

  lemma NewHomed(m: Mem, m': Mem, ch: Chains, x: Entry)
    requires Homed(m, ch) && x !in ch && m'.its == m.its
    ensures Homed(m', ch[x := []])
  {
    forall j | j in m'.its ensures HomedAt(m', ch[x := []], j) { assert HomedAt(m, ch, j); }
  }

  lemma NewEntry(m: Mem, m': Mem, ch: Chains, x: Entry)
    requires Sound(m, ch) && x !in ch && m'.its == m.its && m'.first == m.first[x := null]
    ensures Sound(m', ch[x := []])
  {
    hide Threaded, Homed;
    NewThreaded(m, m', ch, x);
    NewHomed(m, m', ch, x);
  }
}
