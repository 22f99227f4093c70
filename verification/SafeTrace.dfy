/** What an iteration over a changing list has seen and has still to see. */
module SafeTrace {

  ghost function Elems<T>(s: seq<T>): set<T> { set x | x in s }

  ghost predicate NoDup<T>(s: seq<T>) { forall i, j :: 0 <= i < j < |s| ==> s[i] != s[j] }

  /** The elements of `s` that are in `a`, in the order of `s`. */
  ghost function Keep<T>(s: seq<T>, a: set<T>): seq<T> {
    if s == [] then [] else (if s[0] in a then [s[0]] else []) + Keep(s[1..], a)
  }

  ghost function Without<T>(s: seq<T>, x: T): seq<T> {
    if s == [] then [] else (if s[0] != x then [s[0]] else []) + Without(s[1..], x)
  }

  /** The history of one iteration: the list when it began, the entries deleted
      since, those of them it had not reached, and the entries it reached
      before they were deleted. */
  datatype Trace<T> = Trace(start: seq<T>, gone: set<T>, lost: set<T>, reached: seq<T>)

  /** `rest` is what lies ahead of the iteration: of the entries it began with,
      those not lost are the ones reached and, ahead, the ones not deleted. */
  ghost predicate OnTrack<T>(t: Trace<T>, rest: seq<T>, list: seq<T>) {
    && NoDup(t.start) && t.lost <= t.gone
    && Elems(t.start) - t.gone <= Elems(list)
    && Keep(t.start, Elems(t.start) - t.lost) == t.reached + Keep(rest, Elems(t.start) - t.gone)
  }

  // ----- filters

  lemma ElemsConcat<T>(s: seq<T>, u: seq<T>)
    ensures Elems(s + u) == Elems(s) + Elems(u)
  {
  }

  lemma KeepStep<T>(s: seq<T>, a: set<T>)
    ensures s == [] ==> Keep(s, a) == []
    ensures s != [] ==> Keep(s, a) == (if s[0] in a then [s[0]] else []) + Keep(s[1..], a)
  {
  }

  lemma {:induction false} KeepConcat<T>(s: seq<T>, u: seq<T>, a: set<T>)
    ensures Keep(s + u, a) == Keep(s, a) + Keep(u, a)
    decreases |s|
  {
    hide Keep;
    KeepStep(s, a);
    if s == [] {
      assert s + u == u;
    } else {
      assert (s + u)[1..] == s[1..] + u;
      KeepConcat(s[1..], u, a);
      KeepStep(s + u, a);
    }
  }

  lemma {:induction false} WithoutConcat<T>(s: seq<T>, u: seq<T>, x: T)
    ensures Without(s + u, x) == Without(s, x) + Without(u, x)
  {
    if s == [] {
      assert s + u == u;
    } else {
      assert (s + u)[1..] == s[1..] + u;
      WithoutConcat(s[1..], u, x);
    }
  }

  lemma {:induction false} WithoutAbsent<T>(s: seq<T>, x: T)
    requires x !in s
    ensures Without(s, x) == s
  {
    if s != [] { WithoutAbsent(s[1..], x); }
  }

  lemma {:induction false} KeepWithout<T>(s: seq<T>, a: set<T>, x: T)
    ensures Keep(s, a - {x}) == Without(Keep(s, a), x) == Keep(Without(s, x), a)
  {
    if s != [] {
      KeepWithout(s[1..], a, x);
      var h := if s[0] in a then [s[0]] else [];
      WithoutConcat(h, Keep(s[1..], a), x);
      var g := if s[0] != x then [s[0]] else [];
      KeepConcat(g, Without(s[1..], x), a);
    }
  }

  lemma {:induction false} KeepElems<T>(s: seq<T>, a: set<T>)
    ensures Elems(Keep(s, a)) == Elems(s) * a
  {
    if s != [] {
      KeepElems(s[1..], a);
      var h := if s[0] in a then [s[0]] else [];
      ElemsConcat(h, Keep(s[1..], a));
      ElemsConcat([s[0]], s[1..]);
      assert s == [s[0]] + s[1..];
    }
  }

  lemma {:induction false} KeepNoDup<T>(s: seq<T>, a: set<T>)
    requires NoDup(s)
    ensures NoDup(Keep(s, a))
  {
    if s != [] {
      KeepNoDup(s[1..], a);
      KeepElems(s[1..], a);
      var r := Keep(s[1..], a);
      forall i | 0 <= i < |r| ensures r[i] != s[0] {
        assert r[i] in Elems(r);
        assert r[i] in Elems(s[1..]);
      }
    }
  }

  lemma {:induction false} KeepSame<T>(s: seq<T>, a: set<T>, b: set<T>)
    requires forall i :: 0 <= i < |s| ==> (s[i] in a <==> s[i] in b)
    ensures Keep(s, a) == Keep(s, b)
  {
    if s != [] { KeepSame(s[1..], a, b); }
  }

  lemma KeepDrop<T>(s: seq<T>, a: set<T>, x: T)
    ensures Keep(Without(s, x), a - {x}) == Without(Keep(s, a), x)
  {
    KeepWithout(s, a, x);
    var u := Without(s, x);
    KeepElemsWithout(s, x);
    forall i | 0 <= i < |u| ensures u[i] != x { assert u[i] in Elems(u); }
    KeepSame(u, a, a - {x});
  }

  /** Without an element that occurs once. */
  lemma {:induction false} WithoutAt<T>(s: seq<T>, k: nat)
    requires NoDup(s) && k < |s|
    ensures Without(s, s[k]) == s[..k] + s[k + 1..]
  {
    if k == 0 {
      WithoutAbsent(s[1..], s[0]);
    } else {
      WithoutAt(s[1..], k - 1);
      assert s[1..][..k - 1] == s[1..k] && s[1..][k..] == s[k + 1..];
      assert [s[0]] + s[1..k] == s[..k];
    }
  }

  lemma WithoutTail<T>(s: seq<T>, k: nat, i: nat)
    requires NoDup(s) && k < |s| && i <= |s|
    ensures |Without(s, s[k])| == |s| - 1
    ensures Without(s[i..], s[k]) == Without(s, s[k])[(if i <= k then i else i - 1)..]
  {
    WithoutAt(s, k);
    if i <= k {
      assert s == s[..i] + s[i..];
      WithoutConcat(s[..i], s[i..], s[k]);
      WithoutAbsent(s[..i], s[k]);
    } else {
      WithoutAbsent(s[i..], s[k]);
    }
  }

  // ----- the steps

  lemma Begins<T>(list: seq<T>)
    requires NoDup(list)
    ensures OnTrack(Trace(list, {}, {}, []), list, list)
  {
  }

  /** The iteration moves on to the next entry ahead. */
  lemma Reaches<T>(t: Trace<T>, rest: seq<T>, list: seq<T>)
    requires OnTrack(t, rest, list) && rest != []
    ensures OnTrack(Reach(t, rest[0]), rest[1..], list)
  {
    assert rest == [rest[0]] + rest[1..];
  }

  ghost function Reach<T>(t: Trace<T>, x: T): Trace<T> {
    if x in t.start && x !in t.gone then t.(reached := t.reached + [x]) else t
  }

  ghost function Lose<T>(t: Trace<T>, x: T): Trace<T> {
    t.(gone := t.gone + {x}, lost := if x in t.start && x !in t.reached && x !in t.gone then t.lost + {x} else t.lost)
  }

  /** An entry is deleted, ahead of the iteration or not. */
  lemma Loses<T>(t: Trace<T>, rest: seq<T>, list: seq<T>, x: T)
    requires OnTrack(t, rest, list)
    ensures OnTrack(Lose(t, x), Without(rest, x), Without(list, x))
  {
    var a, b := Elems(t.start) - t.lost, Elems(t.start) - t.gone;
    var t', ahead := Lose(t, x), Keep(rest, b);
    KeepElemsWithout(list, x);
    KeepDrop(rest, b, x);
    assert Elems(t.start) - t'.gone == b - {x};
    if x in b && x !in t.reached {
      assert Elems(t.start) - t'.lost == a - {x};
      KeepWithout(t.start, a, x);
      WithoutConcat(t.reached, ahead, x);
      WithoutAbsent(t.reached, x);
    } else {
      if x in b { OnceOnly(t, rest, x); }
      KeepElems(rest, b);
      assert x !in Elems(ahead);
      WithoutAbsent(ahead, x);
    }
  }

  lemma {:induction false} KeepElemsWithout<T>(s: seq<T>, x: T)
    ensures Elems(Without(s, x)) == Elems(s) - {x}
  {
    if s != [] {
      KeepElemsWithout(s[1..], x);
      var h := if s[0] != x then [s[0]] else [];
      ElemsConcat(h, Without(s[1..], x));
      ElemsConcat([s[0]], s[1..]);
      assert s == [s[0]] + s[1..];
    }
  }

  lemma OnceOnly<T>(t: Trace<T>, rest: seq<T>, x: T)
    requires NoDup(t.start) && x in t.reached
    requires Keep(t.start, Elems(t.start) - t.lost) == t.reached + Keep(rest, Elems(t.start) - t.gone)
    ensures x !in Keep(rest, Elems(t.start) - t.gone)
  {
    var k, r := Keep(t.start, Elems(t.start) - t.lost), Keep(rest, Elems(t.start) - t.gone);
    KeepNoDup(t.start, Elems(t.start) - t.lost);
    var i :| 0 <= i < |t.reached| && t.reached[i] == x;
    assert k[i] == x;
    forall j | 0 <= j < |r| ensures r[j] != x { assert k[|t.reached| + j] == r[j]; }
  }

  /** An entry is added: one that is not in the list is new to the iteration. */
  lemma Grows<T>(t: Trace<T>, rest: seq<T>, rest': seq<T>, list: seq<T>, list': seq<T>, x: T)
    requires OnTrack(t, rest, list) && x !in list && (rest' == rest || rest' == rest + [x])
    requires Elems(list') == Elems(list) + {x}
    ensures OnTrack(t, rest', list')
  {
    var b := Elems(t.start) - t.gone;
    assert x !in b;
    if rest' != rest {
      KeepConcat(rest, [x], b);
      assert Keep([x], b) == [];
    }
  }

  /** At the end nothing is ahead: every entry of the beginning was reached, once
      and in order, unless it had been deleted before. */
  lemma Ends<T>(t: Trace<T>, list: seq<T>)
    requires OnTrack(t, [], list)
    ensures t.reached == Keep(t.start, Elems(t.start) - t.lost) && NoDup(t.reached)
  {
    assert t.reached + [] == t.reached;
    KeepNoDup(t.start, Elems(t.start) - t.lost);
  }
}
