/** safe_list.c: a list that may change under any number of nested iterations. */
module SafeList {
  import opened SafeChain
  import opened SafeTrace

  /** The position of an entry, and the entry after it; the head follows the last
      entry and precedes the first. */
  function Index(s: seq<Entry>, e: Entry): (k: nat)
    requires e in s
    ensures k < |s| && s[k] == e
  {
    if s[0] == e then 0 else 1 + Index(s[1..], e)
  }

  function Succ(head: Entry, s: seq<Entry>, e: Entry): (n: Entry)
    requires e == head || e in s
    ensures n == head || n in s
  {
    var k := if e == head then 0 else Index(s, e) + 1;
    if k < |s| then s[k] else head
  }

  /** What lies ahead of an iteration whose saved next entry is `e`. */
  ghost function Rest(head: Entry, s: seq<Entry>, e: Entry?): seq<Entry> {
    if e != null && e != head && e in s then s[Index(s, e)..] else []
  }

  lemma CutOut(s: seq<Entry>, k: nat)
    requires NoDup(s) && k < |s|
    ensures s[..k] + s[k + 1..] == Without(s, s[k]) && NoDup(Without(s, s[k]))
    ensures Elems(Without(s, s[k])) == Elems(s) - {s[k]}
  {
    hide NoDup, Without, Elems;
    WithoutAt(s, k);
    KeepElemsWithout(s, s[k]);
    CutNoDup(s, k);
  }

  lemma CutNoDup(s: seq<Entry>, k: nat)
    requires NoDup(s) && k < |s|
    ensures NoDup(s[..k] + s[k + 1..])
  {
    var a, b := s[..k], s[k + 1..];
    forall i, j | 0 <= i < j < |a + b|
      ensures (a + b)[i] != (a + b)[j]
    {
      var i', j' := if i < k then i else i + 1, if j < k then j else j + 1;
      assert (a + b)[i] == s[i'] && (a + b)[j] == s[j'];
    }
  }

  lemma RestAt(head: Entry, s: seq<Entry>, i: nat)
    requires NoDup(s) && head !in s && i <= |s|
    ensures Rest(head, s, if i < |s| then s[i] else head) == s[i..]
  {
    if i < |s| { IndexAt(s, i); }
  }

  /** What lies ahead when `x` is deleted, for an iteration that is sent on to the
      entry behind `x` if `x` was its next. */
  lemma RestCut(head: Entry, s: seq<Entry>, x: Entry, e: Entry)
    requires NoDup(s) && head !in s && x in s && (e == head || e in s)
    ensures Rest(head, Without(s, x), if e == x then Succ(head, s, x) else e) == Without(Rest(head, s, e), x)
  {
    hide Rest, NoDup, Elems, Without, Index;
    var k, i := Index(s, x), if e == head then |s| else Index(s, e);
    var s', i' := Without(s, x), if i <= k then i else i - 1;
    CutOut(s, k);
    RestAt(head, s, i);
    WithoutTail(s, k, i);
    RestAt(head, s', i');
  }

  /** An iteration stays on track when an entry is deleted. */
  lemma TrackCut(head: Entry, s: seq<Entry>, x: Entry, e: Entry, t: Trace<Entry>)
    requires NoDup(s) && head !in s && x in s && (e == head || e in s) && OnTrack(t, Rest(head, s, e), s)
    ensures OnTrack(Lose(t, x), Rest(head, Without(s, x), if e == x then Succ(head, s, x) else e), Without(s, x))
  {
    hide Rest, NoDup, OnTrack, Lose, Without, Succ;
    RestCut(head, s, x, e);
    Loses(t, Rest(head, s, e), s, x);
  }

  lemma Longer(head: Entry, s: seq<Entry>, x: Entry)
    requires NoDup(s) && head !in s && x != head && x !in s
    ensures NoDup(s + [x]) && head !in s + [x] && Elems(s + [x]) == Elems(s) + {x}
    ensures NoDup([x] + s) && head !in [x] + s && Elems([x] + s) == Elems(s) + {x}
  {
  }

  lemma TrackAdd(head: Entry, s: seq<Entry>, x: Entry, e: Entry, t: Trace<Entry>)
    requires NoDup(s) && head !in s && x != head && x !in s && (e == head || e in s) && OnTrack(t, Rest(head, s, e), s)
    ensures OnTrack(t, Rest(head, s + [x], e), s + [x])
  {
    hide OnTrack;
    Longer(head, s, x);
    if e != head {
      var i := Index(s, e);
      assert (s + [x])[i] == e && (s + [x])[i..] == s[i..] + [x];
      IndexAt(s + [x], i);
    }
    Grows(t, Rest(head, s, e), Rest(head, s + [x], e), s, s + [x], x);
  }

  lemma TrackAddFirst(head: Entry, s: seq<Entry>, x: Entry, e: Entry, t: Trace<Entry>)
    requires NoDup(s) && head !in s && x != head && x !in s && (e == head || e in s) && OnTrack(t, Rest(head, s, e), s)
    ensures OnTrack(t, Rest(head, [x] + s, e), [x] + s)
  {
    hide OnTrack;
    Longer(head, s, x);
    if e != head {
      var i := Index(s, e);
      assert ([x] + s)[i + 1] == e && ([x] + s)[i + 1..] == s[i..];
      IndexAt([x] + s, i + 1);
    }
    Grows(t, Rest(head, s, e), Rest(head, [x] + s, e), s, [x] + s, x);
  }

  /** Every entry the iteration began with was reached, once and in order, unless
      it had been deleted before. */
  ghost predicate Complete(t: Trace<Entry>) {
    t.reached == Keep(t.start, Elems(t.start) - t.lost) && NoDup(t.reached)
  }

  lemma TrackEnd(head: Entry, s: seq<Entry>, t: Trace<Entry>)
    requires head !in s && OnTrack(t, Rest(head, s, head), s)
    ensures Complete(t)
  {
    Ends(t, s);
  }

  lemma TrackBegin(head: Entry, s: seq<Entry>)
    requires NoDup(s) && head !in s && s != []
    ensures OnTrack(Trace(s, {}, {}, [s[0]]), Rest(head, s, Succ(head, s, s[0])), s)
  {
    Begins(s);
    Reaches(Trace(s, {}, {}, []), s, s);
    IndexAt(s, 0);
    RestAt(head, s, 1);
    assert [] + [s[0]] == [s[0]];
  }

  lemma TrackStep(head: Entry, s: seq<Entry>, e: Entry, t: Trace<Entry>)
    requires NoDup(s) && head !in s && e in s && OnTrack(t, Rest(head, s, e), s)
    ensures OnTrack(Reach(t, e), Rest(head, s, Succ(head, s, e)), s)
  {
    var i := Index(s, e);
    Reaches(t, s[i..], s);
    RestAt(head, s, i + 1);
    assert s[i..][1..] == s[i + 1..];
  }

  lemma NextOf(head: Entry, s: seq<Entry>, x: Entry)
    requires NoDup(s) && head !in s && x in s
    ensures Succ(head, s, x) != x
  {
    IndexAt(s, Index(s, x));
  }

  lemma IndexAt(s: seq<Entry>, k: nat)
    requires NoDup(s) && k < |s|
    ensures Index(s, s[k]) == k
  {
    var i := Index(s, s[k]);
    assert s[i] == s[k];
  }

  /** The entries that are left when one is cut out. */
  lemma CutKeys(s: seq<Entry>, k: nat, head: Entry, es: set<Entry>)
    requires k < |s| && NoDup(s) && head !in s && es == {head} + Elems(s)
    ensures var s' := s[..k] + s[k + 1..];
            s' == Without(s, s[k]) && NoDup(s') && head !in s' && {head} + Elems(s') == es - {s[k]}
  {
    hide NoDup, Without;
    CutOut(s, k);
  }

  /** A list without entries and iterators. */
  lemma NothingParked(h: Entry, es: set<Entry>, its: set<Iter>)
    requires h.i == null && es == {h} && its == {}
    ensures Sound(Snap(es, its), map[h := []]) && NoDup<Entry>([]) && Elems<Entry>([]) == {}
  {
    var m := Snap(es, its);
    assert m.first == map[h := null] && m.its == map[];
  }

  class List {
    const head: Entry
    var list: seq<Entry>
    /** The iterators parked on every entry, and the history of every iteration
        under way. */
    ghost var chains: Chains
    ghost var traces: map<Iter, Trace<Entry>>

    ghost predicate Linked()
      reads this, chains.Keys, traces.Keys
    {
      && NoDup(list) && head !in list && chains.Keys == {head} + Elems(list)
      && Sound(Snap(chains.Keys, traces.Keys), chains)
    }

    /** Every iteration under way has its iterator on the chain of its saved next
        entry, which is in the list or the head, and is on track. */
    ghost predicate Valid()
      reads this, chains.Keys, traces.Keys
    {
      Linked() && Tracked()
    }

    ghost predicate Tracked()
      reads this, traces.Keys`next
    {
      forall j :: j in traces ==> OnTrack(traces[j], Rest(head, list, j.next), list)
    }

    constructor (h: Entry)
      modifies h`i
      ensures Valid() && list == [] && traces == map[] && head == h
    {
      hide Sound, Snap, NoDup, Elems, OnTrack, Rest;
      head := h;
      list, chains, traces := [], map[h := []], map[];
      new;
      h.i := null;
      NothingParked(h, chains.Keys, traces.Keys);
    }

    /** `__safe_list_set_iterator`, for an iterator that is on no chain. */
    method SetIterator(e: Entry, it: Iter, ghost t: Trace<Entry>)
      requires Linked() && (e == head || e in list) && it !in traces
      modifies `chains, `traces, it, chains.Keys`i, traces.Keys`head
      ensures Linked() && traces == old(traces)[it := t]
      ensures it.next == Succ(head, list, e) && chains.Keys == old(chains.Keys)
    {
      hide Sound, Succ, NoDup, Elems, ParkedAt, Park, Snap;
      ghost var es, its, ch := chains.Keys, traces.Keys, chains;
      var next := Succ(head, list, e);
      InKeys(next);
      ghost var m := Snap(es, its);
      FirstSound(m, ch, next);
      SnapFirst(es, its, next);
      traces := traces[it := t];
      chains := Park(ch, next, it);
      assert traces.Keys == its + {it};
      Hook(next, it, es, its);
      Parks(m, Snap(es, its + {it}), ch, next, it);
    }

    /** `__safe_list_del_iterator`. */
    method DelIterator(it: Iter)
      requires Linked() && it in traces
      modifies `chains, `traces, chains.Keys`i, traces.Keys`head, traces.Keys`nextI
      ensures Linked() && traces == old(traces) - {it} && chains.Keys == old(chains.Keys)
    {
      hide Sound, NoDup, Elems, Unlinked, Chain, Unpark, Snap;
      ghost var es, its, ch := chains.Keys, traces.Keys, chains;
      ghost var m := Snap(es, its);
      ghost var e, k := Whereabouts(m, ch, it);
      traces := traces - {it};
      chains := Unpark(ch, e, k);
      assert traces.Keys == its - {it};
      Unhook(it, es, its, e, ch[e], k);
      Unparks(m, Snap(es, its), ch, e, k);
      SnapLess(es, its, it);
    }

    /** `safe_list_del`: every iteration whose saved next entry goes is sent on to
        the entry behind it. */
    method Del(x: Entry)
      requires Valid() && x in list
      modifies `list, `chains, `traces, chains.Keys`i, traces.Keys`head, traces.Keys`nextI, traces.Keys`next
      ensures Valid() && list == Without(old(list), x) && x.i == null
      ensures traces == map j | j in old(traces) :: Lose(old(traces)[j], x)
    {
      hide Linked, NoDup, Succ, OnTrack, Lose, Without, Rest;
      NextIn();
      ghost var ts := traces;
      DelLinks(x, map j | j in ts :: Lose(ts[j], x));
      forall j | j in traces ensures OnTrack(traces[j], Rest(head, list, j.next), list) {
        TrackCut(head, old(list), x, old(j.next), ts[j]);
      }
    }

    // ----- one iteration, step by step: `safe_list_for_each`

    /** The iteration begins; returned is the first entry it visits, or the head. */
    method Begin(it: Iter) returns (cur: Entry)
      requires Valid() && it !in traces
      modifies `chains, `traces, it, chains.Keys`i, traces.Keys`head, traces.Keys`nextI
      ensures Valid() && list == old(list)
      ensures cur == if list == [] then head else list[0]
      ensures traces == if list == [] then old(traces) else old(traces)[it := Trace(list, {}, {}, [list[0]])]
    {
      hide Linked, OnTrack, Rest, NoDup;
      NextIn();
      cur := Succ(head, list, head);
      SetIterator(cur, it, Trace(list, {}, {}, [cur]));
      if cur == head {
        DelIterator(it);
        assert traces == old(traces);
      } else {
        TrackBegin(head, list);
      }
    }

    /** The callback has returned 0: the iteration goes on to its saved next entry,
        or is over when that is the head. */
    method Step(it: Iter) returns (cur: Entry)
      requires Valid() && it in traces
      modifies `chains, `traces, it, chains.Keys`i, traces.Keys`head, traces.Keys`nextI
      ensures Valid() && list == old(list) && cur == old(it.next)
      ensures cur == head || cur in list
      ensures cur != head ==> traces == old(traces)[it := Reach(old(traces)[it], cur)]
      ensures cur == head ==> traces == old(traces) - {it} && Complete(old(traces)[it])
    {
      hide Linked, OnTrack, Rest, NoDup, Succ, Reach, Complete;
      NextIn();
      ghost var ts := traces;
      cur := it.next;
      DelIterator(it);
      SetIterator(cur, it, Reach(ts[it], cur));
      if cur == head {
        TrackEnd(head, list, ts[it]);
        DelIterator(it);
        assert traces == ts - {it};
      } else {
        TrackStep(head, list, cur, ts[it]);
        assert traces == ts[it := Reach(ts[it], cur)];
      }
    }

    /** The callback has returned something else: the iteration is broken off. */
    method Break(it: Iter)
      requires Valid() && it in traces
      modifies `chains, `traces, chains.Keys`i, traces.Keys`head, traces.Keys`nextI
      ensures Valid() && list == old(list) && traces == old(traces) - {it}
    {
      hide Linked, OnTrack, Rest;
      DelIterator(it);
    }

    /** The part of a deletion that rewrites pointers. */
    method DelLinks(x: Entry, ghost ts: map<Iter, Trace<Entry>>)
      requires Linked() && x in list && ts.Keys == traces.Keys
      modifies `list, `chains, `traces, chains.Keys`i, traces.Keys`head, traces.Keys`nextI, traces.Keys`next
      ensures Linked() && list == Without(old(list), x) && x.i == null && traces == ts
      ensures forall j :: j in traces ==>
                old(j.next) != null && j.next == if old(j.next) == x then Succ(head, old(list), x) else old(j.next)
    {
      hide Sound, NoDup, Elems, Snap, Splice, Succ, Index, Without;
      ghost var s, es, its, ch := list, chains.Keys, traces.Keys, chains;
      var next := Succ(head, list, x);
      NextOf(head, list, x);
      InKeys(x);
      InKeys(next);
      var k := Index(list, x);
      CutKeys(s, k, head, es);
      list := list[..k] + list[k + 1..];
      chains := Splice(ch, x, next);
      traces := ts;
      PassOn(x, next, es, its, ch);
    }

    lemma NextIn()
      requires Linked()
      ensures NoDup(list) && head !in list
      ensures forall j :: j in traces ==> j.next != null && (j.next == head || j.next in list)
    {
      hide Threaded;
      forall j | j in traces ensures j.next != null && (j.next == head || j.next in list) {
        assert HomedAt(Snap(chains.Keys, traces.Keys), chains, j);
      }
    }

    /** `safe_list_add`: at the end. */
    method Add(x: Entry)
      requires Valid() && x != head && x !in list
      modifies `list, `chains, x`i
      ensures Valid() && list == old(list) + [x] && traces == old(traces)
    {
      hide Sound, OnTrack, Rest, NoDup;
      NextIn();
      ghost var s := list;
      AddLinks(x);
      list := list + [x];
      Longer(head, s, x);
      forall j | j in traces ensures OnTrack(traces[j], Rest(head, list, j.next), list) {
        TrackAdd(head, s, x, j.next, traces[j]);
      }
    }

    /** `safe_list_add_first`: at the front, where no iteration comes any more. */
    method AddFirst(x: Entry)
      requires Valid() && x != head && x !in list
      modifies `list, `chains, x`i
      ensures Valid() && list == [x] + old(list) && traces == old(traces)
    {
      hide Sound, OnTrack, Rest, NoDup;
      NextIn();
      ghost var s := list;
      AddLinks(x);
      list := [x] + list;
      Longer(head, s, x);
      forall j | j in traces ensures OnTrack(traces[j], Rest(head, list, j.next), list) {
        TrackAddFirst(head, s, x, j.next, traces[j]);
      }
    }

    method AddLinks(x: Entry)
      requires Linked() && x !in chains
      modifies `chains, x`i
      ensures chains == old(chains)[x := []] && Sound(Snap(chains.Keys, traces.Keys), chains)
    {
      hide Sound, NoDup, Elems;
      ghost var es, its, ch := chains.Keys, traces.Keys, chains;
      ghost var m := Snap(es, its);
      chains := chains[x := []];
      x.i := null;
      assert chains.Keys == es + {x};
      ghost var m' := Snap(es + {x}, its);
      assert m'.first == m.first[x := null] && m'.its == m.its;
      NewEntry(m, m', ch, x);
    }

    lemma InKeys(e: Entry)
      requires chains.Keys == {head} + Elems(list) && (e == head || e in list)
      ensures e in chains.Keys
    {
    }
  }

  /** All iterators of the chain `c` that starts at `first` are sent to `next`;
      returned is the pointer at the end of the chain. */
  method Retarget(first: Iter, next: Entry, ghost its: set<Iter>, ghost c: seq<Iter>) returns (last: Iter)
    requires c != [] && first == c[0]
    requires forall k :: 0 <= k < |c| ==> c[k] in its && c[k].nextI == Nth(c, k + 1)
    modifies its`next
    ensures last == c[|c| - 1]
    ensures forall j :: j in its ==> j.next == if j in c then next else old(j.next)
  {
    var i: Iter? := first;
    last := first;
    ghost var k := 0;
    while i != null
      invariant k <= |c| && i == Nth(c, k) && (k > 0 ==> last == c[k - 1])
      invariant forall j :: j in its ==> j.next == if j in c[..k] then next else old(j.next)
      decreases |c| - k
    {
      last := i;
      i.next := next;
      assert c[..k + 1] == c[..k] + [c[k]];
      i, k := i.nextI, k + 1;
    }
    assert c[..k] == c;
  }

  /** The assignments of a deletion that hand the chain of `x` on to `next`. */
  method Handover(x: Entry, next: Entry, ghost es: set<Entry>, ghost its: set<Iter>, ghost c: seq<Iter>)
    requires {x, next} <= es && x != next && x.i == Nth(c, 0) && (next.i != null ==> next.i in its)
    requires forall k :: 0 <= k < |c| ==> c[k] in its && c[k].nextI == Nth(c, k + 1)
    requires next.i != null ==> next.i !in c
    modifies es`i, its`head, its`nextI, its`next
    ensures if c == [] then Snap(es, its) == old(Snap(es, its))
            else SplicedFields(old(Snap(es, its)), Snap(es, its), c, x, next)
    ensures x.i == null
  {
    if x.i != null {
      var last := Retarget(x.i, next, its, c);
      JoinChains(x, next, x.i, last, next.i);
    }
  }

  /** The chain of `x` goes to `next`, and `x` leaves. */
  method PassOn(x: Entry, next: Entry, ghost es: set<Entry>, ghost its: set<Iter>, ghost ch: Chains)
    requires {x, next} <= ch.Keys == es && x != next && Sound(Snap(es, its), ch)
    modifies es`i, its`head, its`nextI, its`next
    ensures Sound(Snap(es - {x}, its), Splice(ch, x, next)) && x.i == null
    ensures forall j :: j in its ==>
              old(j.next) != null && j.next == if old(j.next) == x then next else old(j.next)
  {
    hide Sound, Threaded, SplicedFields, Splice, Spliced;
    ghost var m := Snap(es, its);
    BeforeSplice(m, ch, x, next);
    SnapFields(es, its);
    Handover(x, next, es, its, ch[x]);
    ghost var m' := Snap(es, its);
    Respliced(m, m', ch, x, next);
    SnapDrop(es, its, x);
    RetargetAll(m, m', es, its, ch, x, next);
  }

  method JoinChains(x: Entry, next: Entry, first: Iter, last: Iter, nextI: Iter?)
    requires x != next && x.i == first && next.i == nextI && nextI != first && nextI != last
    modifies x`i, next`i, first`head, last`nextI, (if nextI == null then {} else {nextI})`head
    ensures next.i == first && x.i == null && first.head == At(OfEntry(next)) && last.nextI == nextI
    ensures nextI != null ==> nextI.head == At(OfIter(last))
  {
    next.i := x.i;
    x.i.head := At(OfEntry(next));
    last.nextI := nextI;
    if nextI != null {
      nextI.head := At(OfIter(last));
    }
    x.i := null;
  }

  /** The assignments that take `it` off the chain `c` of `e`. */
  method Unhook(it: Iter, ghost es: set<Entry>, ghost its: set<Iter>, ghost e: Entry, ghost c: seq<Iter>, ghost k: nat)
    requires k < |c| && c[k] == it && it in its && Chain(Snap(es, its), e, c)
    requires forall a, b :: 0 <= a < b < |c| ==> c[a] != c[b]
    modifies es`i, its`head, its`nextI
    ensures Chain(old(Snap(es, its)), e, c) && Unlinked(old(Snap(es, its)), Snap(es, its), e, c, k)
  {
    ghost var m := Snap(es, its);
    assert m.its[c[k]] == Link(e, c, k);
    assert k > 0 ==> c[k - 1] in its;
    assert k + 1 < |c| ==> c[k + 1] in its;
    match it.head.slot {
      case OfEntry(x) => x.i := it.nextI;
      case OfIter(x) => x.nextI := it.nextI;
    }
    if it.nextI != null {
      it.nextI.head := it.head;
    }
  }

  lemma SnapLess(es: set<Entry>, its: set<Iter>, j: Iter)
    ensures Less(Snap(es, its), j) == Snap(es, its - {j})
  {
    var m, m' := Less(Snap(es, its), j), Snap(es, its - {j});
    assert m.its.Keys == its - {j};
    assert m.its == m'.its && m.first == m'.first;
  }

  lemma SnapDrop(es: set<Entry>, its: set<Iter>, x: Entry)
    ensures Snap(es - {x}, its) == Mem(Snap(es, its).first - {x}, Snap(es, its).its)
  {
    var m, m' := Snap(es, its), Snap(es - {x}, its);
    assert m'.first == m.first - {x} && m'.its == m.its;
  }

  lemma Respliced(m: Mem, m': Mem, ch: Chains, x: Entry, n: Entry)
    requires Sound(m, ch) && x in ch && n in ch && x != n && n in m.first
    requires if ch[x] == [] then m' == m else SplicedFields(m, m', ch[x], x, n)
    ensures Spliced(m, m', ch, x, n) && Sound(Mem(m'.first - {x}, m'.its), Splice(ch, x, n))
  {
    hide Threaded, Homed, SplicedFields, Spliced, Splice;
    FieldsSplice(m, m', ch, x, n);
    Splices(m, m', ch, x, n);
    DropEntry(m', Splice(ch, x, n), x);
  }

  lemma RetargetAll(m: Mem, m': Mem, es: set<Entry>, its: set<Iter>, ch: Chains, x: Entry, n: Entry)
    requires Sound(m, ch) && x in ch && n in ch && x != n && Spliced(m, m', ch, x, n)
    requires m.its.Keys == its && m' == Snap(es, its)
    ensures forall j :: j in its ==> m.its[j].next in ch && j.next == if m.its[j].next == x then n else m.its[j].next
  {
    hide Threaded, Homed, Spliced;
    forall j | j in its ensures m.its[j].next in ch && j.next == if m.its[j].next == x then n else m.its[j].next {
      SplicesNext(m, m', ch, x, n, j);
    }
  }

  lemma SnapFields(es: set<Entry>, its: set<Iter>)
    ensures forall e :: e in es ==> Snap(es, its).first[e] == e.i
    ensures forall j :: j in its ==> Snap(es, its).its[j] == Parked(j.head, j.nextI, j.next)
  {
  }

  lemma SnapFirst(es: set<Entry>, its: set<Iter>, e: Entry)
    requires e in es
    ensures Snap(es, its).first[e] == e.i
  {
  }

  /** The assignments that put `it` in front of the chain of `next`. */
  method Hook(next: Entry, it: Iter, ghost es: set<Entry>, ghost its: set<Iter>)
    requires next in es && it !in its && (next.i != null ==> next.i in its)
    modifies next`i, it, its`head
    ensures ParkedAt(old(Snap(es, its)), Snap(es, its + {it}), next, it)
    ensures it.next == next
  {
    var nextI := next.i;
    next.i := it;
    it.next := next;
    it.head := At(OfEntry(next));
    it.nextI := nextI;
    if nextI != null {
      nextI.head := At(OfIter(it));
    }
  }
}
