/** Keys, the comparator, and sorted sequences of nodes with runs of equal keys. */
module AvlOrder {
  import opened AvlShape

  type Comp = (Key, Key) -> int

  /** What the library demands of a comparator: the sign of its result is a
      total preorder. Keys that compare equal need not be the same key. */
  ghost predicate Order(c: Comp) {
    && (forall a, b :: c(a, b) > 0 <==> c(b, a) < 0)
    && (forall a, b, d :: c(a, b) <= 0 && c(b, d) <= 0 ==> c(a, d) <= 0)
  }

  lemma Trans(c: Comp, a: Key, b: Key, d: Key)
    requires Order(c) && c(a, b) <= 0 && c(b, d) <= 0
    ensures c(a, d) <= 0
    ensures c(a, b) < 0 || c(b, d) < 0 ==> c(a, d) < 0
    ensures c(d, a) >= 0 && (c(a, d) == 0 ==> c(d, a) == 0)
  {
    if c(a, d) == 0 {
      assert c(d, a) == 0;
      assert c(b, a) <= 0 && c(d, b) <= 0;
    }
  }

  ghost predicate Sorted(c: Comp, s: seq<Node>) {
    forall i, j :: 0 <= i < j < |s| ==> c(s[i].key, s[j].key) <= 0
  }

  ghost predicate Strict(c: Comp, s: seq<Node>) {
    forall i, j :: 0 <= i < j < |s| ==> c(s[i].key, s[j].key) < 0
  }

  /** A run of equal keys starts at `i`. */
  ghost predicate Starts(c: Comp, s: seq<Node>, i: int)
    requires 0 <= i < |s|
  {
    i == 0 || c(s[i - 1].key, s[i].key) != 0
  }

  /** The first nodes of the runs. */
  ghost function Leads(c: Comp, s: seq<Node>): set<Node> {
    set i | 0 <= i < |s| && Starts(c, s, i) :: s[i]
  }

  /** The run that the position `j` belongs to starts at `i`. */
  lemma RunStart(c: Comp, s: seq<Node>, j: int) returns (i: int)
    requires Order(c) && Sorted(c, s) && 0 <= j < |s|
    ensures 0 <= i <= j && Starts(c, s, i) && c(s[i].key, s[j].key) == 0 && s[i] in Leads(c, s)
  {
    i := j;
    while !Starts(c, s, i)
      invariant 0 <= i <= j && c(s[i].key, s[j].key) == 0
      decreases i
    {
      Trans(c, s[i - 1].key, s[i].key, s[j].key);
      i := i - 1;
    }
  }

  // ----- the list as the walk of the leaders

  /** The length of the run at the front. */
  ghost function Run(c: Comp, s: seq<Node>, k: nat): (r: nat)
    requires 0 < k <= |s|
    ensures k <= r <= |s|
    ensures forall i :: k <= i < r ==> !Starts(c, s, i)
    ensures r < |s| ==> Starts(c, s, r)
    decreases |s| - k
  {
    if k < |s| && !Starts(c, s, k) then Run(c, s, k + 1) else k
  }

  /** The list is the walk with every leader followed by the rest of its run. */
  ghost predicate Threads(c: Comp, w: seq<Node>, s: seq<Node>) {
    if w == [] then s == []
    else s != [] && s[0] == w[0] && Threads(c, w[1..], s[Run(c, s, 1)..])
  }

  lemma {:induction false} WalkThreads(c: Comp, w: seq<Node>, s: seq<Node>)
    requires Order(c) && Sorted(c, s) && NoDup(s) && Strict(c, w) && Elems(w) == Leads(c, s)
    ensures Threads(c, w, s)
  {
    hide Order, Starts;
    assert w != [] ==> w[0] in Elems(w);
    if s != [] {
      var k := Run(c, s, 1);
      FirstLead(c, w, s);
      var s', w' := s[k..], w[1..];
      LaterLeads(c, s, k);
      RestElems(c, w);
      WalkThreads(c, w', s');
    }
  }

  lemma RestElems(c: Comp, w: seq<Node>)
    requires Order(c) && Strict(c, w) && w != []
    ensures Elems(w[1..]) == Elems(w) - {w[0]}
  {
    forall i | 1 <= i < |w| ensures w[i] != w[0] { assert c(w[0].key, w[i].key) < 0; }
    assert w == [w[0]] + w[1..];
  }

  lemma FirstLead(c: Comp, w: seq<Node>, s: seq<Node>)
    requires Order(c) && Sorted(c, s) && Strict(c, w) && Elems(w) == Leads(c, s) && s != []
    ensures w != [] && s[0] == w[0]
  {
    assert Starts(c, s, 0) && s[0] in Leads(c, s);
    var i :| 0 <= i < |w| && w[i] == s[0];
    assert w[0] in Elems(w);
    var j :| 0 <= j < |s| && s[j] == w[0];
    assert c(w[0].key, w[i].key) <= 0;
    assert c(s[0].key, s[j].key) <= 0;
  }

  lemma LaterLeads(c: Comp, s: seq<Node>, k: nat)
    requires NoDup(s) && s != [] && k == Run(c, s, 1)
    ensures Leads(c, s[k..]) == Leads(c, s) - {s[0]}
  {
    var s' := s[k..];
    assert forall i :: 1 <= i < |s| ==> s[i] != s[0];
    forall i | 0 <= i < |s'| ensures Starts(c, s', i) <==> Starts(c, s, i + k) {
      assert s'[i] == s[i + k] && (i > 0 ==> s'[i - 1] == s[i + k - 1]);
    }
    hide Sorted, NoDup;
    forall x | x in Leads(c, s) - {s[0]} ensures x in Leads(c, s') {
      var i :| 0 <= i < |s| && Starts(c, s, i) && s[i] == x;
      assert Starts(c, s', i - k) && s'[i - k] == x;
    }
    forall x | x in Leads(c, s') ensures x in Leads(c, s) && x != s[0] {
      var i :| 0 <= i < |s'| && Starts(c, s', i) && s'[i] == x;
      assert Starts(c, s, i + k) && s[i + k] == x;
    }
  }

  // ----- searching a sorted sequence

  ghost predicate Under(c: Comp, s: seq<Node>, key: Key) { forall i :: 0 <= i < |s| ==> c(key, s[i].key) > 0 }

  ghost predicate Over(c: Comp, s: seq<Node>, key: Key) { forall i :: 0 <= i < |s| ==> c(key, s[i].key) < 0 }

  /** The first position whose key is greater than `key`. */
  ghost function Slot(c: Comp, s: seq<Node>, key: Key): (k: nat)
    ensures k <= |s|
  {
    if s == [] || c(key, s[0].key) < 0 then 0 else 1 + Slot(c, s[1..], key)
  }

  ghost predicate Absent(c: Comp, s: seq<Node>, key: Key) { forall i :: 0 <= i < |s| ==> c(key, s[i].key) != 0 }

  ghost predicate Fits(c: Comp, s: seq<Node>, key: Key, k: int)
    requires 0 <= k <= |s|
  {
    && (forall i :: 0 <= i < k ==> c(key, s[i].key) >= 0)
    && (forall i :: k <= i < |s| ==> c(key, s[i].key) < 0)
  }

  lemma {:induction false} FitsSlot(c: Comp, s: seq<Node>, key: Key, k: int)
    requires 0 <= k <= |s| && Fits(c, s, key, k)
    ensures k == Slot(c, s, key)
  {
    if 0 < k {
      assert Fits(c, s[1..], key, k - 1);
      FitsSlot(c, s[1..], key, k - 1);
    }
  }

  // ----- one node more

  ghost function Put(s: seq<Node>, k: int, n: Node): (r: seq<Node>)
    requires 0 <= k <= |s|
    ensures |r| == |s| + 1
  {
    s[..k] + [n] + s[k..]
  }

  lemma Flip(c: Comp, a: Key, b: Key)
    requires Order(c)
    ensures c(a, b) < 0 <==> c(b, a) > 0
    ensures c(a, b) == 0 <==> c(b, a) == 0
  {
  }

  lemma PutSorted(c: Comp, s: seq<Node>, n: Node, k: int)
    requires Order(c) && Sorted(c, s) && 0 <= k <= |s| && Fits(c, s, n.key, k)
    ensures Sorted(c, Put(s, k, n))
  {
    hide Order;
    var s' := Put(s, k, n);
    forall i, j | 0 <= i < j < |s'| ensures c(s'[i].key, s'[j].key) <= 0 {
      Flip(c, s'[i].key, s'[j].key);
    }
  }

  /** Where runs start after `n` went behind everything that is not greater. */
  lemma PutStarts(c: Comp, s: seq<Node>, n: Node, k: int, i: int)
    requires Order(c) && Sorted(c, s) && 0 <= k <= |s| && Fits(c, s, n.key, k) && 0 <= i <= |s|
    ensures i < k ==> Put(s, k, n)[i] == s[i] && (Starts(c, Put(s, k, n), i) <==> Starts(c, s, i))
    ensures i == k ==> Put(s, k, n)[i] == n && (Starts(c, Put(s, k, n), i) <==> k == 0 || c(n.key, s[k - 1].key) > 0)
    ensures i > k ==> Put(s, k, n)[i] == s[i - 1] && (Starts(c, Put(s, k, n), i) <==> Starts(c, s, i - 1))
  {
    hide Order, Sorted;
    if 0 < k {
      Flip(c, s[k - 1].key, n.key);
      if k < |s| { Trans(c, s[k - 1].key, n.key, s[k].key); }
    }
  }

  lemma PutLeads(c: Comp, s: seq<Node>, n: Node, k: int)
    requires Order(c) && Sorted(c, s) && 0 <= k <= |s| && Fits(c, s, n.key, k) && n !in s
    ensures Leads(c, Put(s, k, n)) == Leads(c, s) + (if k == 0 || c(n.key, s[k - 1].key) > 0 then {n} else {})
  {
    hide Order, Sorted, Fits, Starts, Put;
    var s' := Put(s, k, n);
    forall x | x in Leads(c, s) ensures x in Leads(c, s') {
      var i :| 0 <= i < |s| && Starts(c, s, i) && s[i] == x;
      PutStarts(c, s, n, k, if i < k then i else i + 1);
    }
    forall x | x in Leads(c, s') ensures x in Leads(c, s) || (x == n && (k == 0 || c(n.key, s[k - 1].key) > 0)) {
      var i :| 0 <= i < |s'| && Starts(c, s', i) && s'[i] == x;
      PutStarts(c, s, n, k, i);
    }
    PutStarts(c, s, n, k, k);
  }

  // ----- one node less

  ghost function Cut(s: seq<Node>, k: int): (r: seq<Node>)
    requires 0 <= k < |s|
    ensures |r| == |s| - 1
  {
    s[..k] + s[k + 1..]
  }

  lemma CutSorted(c: Comp, s: seq<Node>, k: int)
    requires Sorted(c, s) && 0 <= k < |s|
    ensures Sorted(c, Cut(s, k))
  {
  }

  /** Where runs start after the node at `k` went. */
  lemma CutStarts(c: Comp, s: seq<Node>, k: int, i: int)
    requires Order(c) && Sorted(c, s) && 0 <= k < |s| && 0 <= i < |s| - 1
    ensures i < k ==> Cut(s, k)[i] == s[i] && (Starts(c, Cut(s, k), i) <==> Starts(c, s, i))
    ensures i == k ==> Cut(s, k)[i] == s[i + 1] && (Starts(c, Cut(s, k), i) <==> Starts(c, s, k) || Starts(c, s, k + 1))
    ensures i > k ==> Cut(s, k)[i] == s[i + 1] && (Starts(c, Cut(s, k), i) <==> Starts(c, s, i + 1))
  {
    if i == k && 0 < k {
      var x, y, z := s[k - 1].key, s[k].key, s[k + 1].key;
      assert c(x, y) <= 0 && c(y, z) <= 0;
      hide Order, Sorted;
      Trans(c, x, y, z);
    }
  }

  /** The node handed the lead when the node at `k` goes, if there is one. */
  ghost predicate HasHeir(c: Comp, s: seq<Node>, k: int)
    requires 0 <= k < |s|
  {
    Starts(c, s, k) && k + 1 < |s| && !Starts(c, s, k + 1)
  }

  lemma Differ(s: seq<Node>, i: int, j: int)
    requires NoDup(s) && 0 <= i < |s| && 0 <= j < |s|
    ensures s[i] == s[j] ==> i == j
  {
  }

  lemma CutLeads(c: Comp, s: seq<Node>, k: int)
    requires Order(c) && Sorted(c, s) && NoDup(s) && 0 <= k < |s|
    ensures Leads(c, Cut(s, k)) == Leads(c, s) - {s[k]} + (if HasHeir(c, s, k) then {s[k + 1]} else {})
  {
    hide Order, Sorted, NoDup, Starts, Cut;
    var s' := Cut(s, k);
    forall x | x in Leads(c, s) && x != s[k] ensures x in Leads(c, s') {
      var i :| 0 <= i < |s| && Starts(c, s, i) && s[i] == x;
      CutStarts(c, s, k, if i < k then i else i - 1);
    }
    forall x | x in Leads(c, s')
      ensures x != s[k] && (x in Leads(c, s) || (HasHeir(c, s, k) && x == s[k + 1]))
    {
      var i :| 0 <= i < |s'| && Starts(c, s', i) && s'[i] == x;
      CutStarts(c, s, k, i);
      Differ(s, k, if i < k then i else i + 1);
    }
    if HasHeir(c, s, k) {
      CutStarts(c, s, k, k);
    }
  }

  // ----- from the walk of the leaders to the list

  /** `n`, at position `i` of the list, is a leader; `b` and `a` are the leaders
      before and after it. */
  ghost predicate Led(c: Comp, s: seq<Node>, b: seq<Node>, n: Node, a: seq<Node>, i: int) {
    && Order(c) && Sorted(c, s) && NoDup(s) && Strict(c, b + [n] + a) && Elems(b + [n] + a) == Leads(c, s)
    && 0 <= i < |s| && s[i] == n && Starts(c, s, i)
  }

  /** The run at `i` ends before `k`. */
  ghost predicate RunTo(c: Comp, s: seq<Node>, i: int, k: int) {
    && 0 <= i < k <= |s|
    && (forall j :: i < j < k ==> !Starts(c, s, j)) && (k < |s| ==> Starts(c, s, k))
  }

  lemma RunBounds(c: Comp, s: seq<Node>, i: int, k: int)
    requires RunTo(c, s, i, k)
    ensures 0 <= i < k <= |s|
  {
  }

  lemma LedAt(c: Comp, s: seq<Node>, b: seq<Node>, n: Node, a: seq<Node>, i: int)
    requires Led(c, s, b, n, a, i)
    ensures 0 <= i < |s| && s[i] == n && n in Elems(s) && NoDup(s)
  {
  }

  lemma LeadBefore(c: Comp, s: seq<Node>, b: seq<Node>, n: Node, a: seq<Node>, i: int, j: int)
    returns (x: Node)
    requires Led(c, s, b, n, a, i) && 0 <= j < i
    ensures x in b && c(x.key, s[j].key) == 0
  {
    var w := b + [n] + a;
    var k := RunStart(c, s, j);
    x := s[k];
    assert x in Elems(w);
    var y :| 0 <= y < |w| && w[y] == x;
    StartsAbove(c, s, k, i);
    assert w[|b|] == n;
    BeyondSelf(c, w, y, |b|);
    assert b[y] == x;
  }

  /** A key between the leaders `b` and `n` belongs right before `n`. */
  lemma FitsBefore(c: Comp, s: seq<Node>, b: seq<Node>, n: Node, a: seq<Node>, i: int, key: Key)
    requires Led(c, s, b, n, a, i) && Under(c, b, key) && c(key, n.key) < 0
    ensures Fits(c, s, key, i) && Absent(c, s, key)
  {
    forall j | 0 <= j < i ensures c(key, s[j].key) > 0 {
      var x := LeadBefore(c, s, b, n, a, i, j);
      hide Order, Led;
      Flip(c, key, x.key);
      Flip(c, x.key, s[j].key);
      Trans(c, s[j].key, x.key, key);
      Flip(c, key, s[j].key);
    }
    forall j | i <= j < |s| ensures c(key, s[j].key) < 0 {
      assert i < j ==> c(n.key, s[j].key) <= 0;
      Flip(c, n.key, n.key);
      Trans(c, key, n.key, s[j].key);
    }
  }

  /** A key not less than `n` and less than the leaders `a` belongs behind the run
      of `n`, which ends before `k`. */
  lemma FitsAfter(c: Comp, s: seq<Node>, b: seq<Node>, n: Node, a: seq<Node>, i: int, k: int, key: Key)
    requires Led(c, s, b, n, a, i) && Over(c, a, key) && c(key, n.key) >= 0
    requires RunTo(c, s, i, k)
    ensures Fits(c, s, key, k) && (c(key, n.key) > 0 ==> Absent(c, s, key))
  {
    hide Order, Starts, Strict, Elems, Leads, NoDup;
    forall j | 0 <= j < k ensures c(key, s[j].key) >= 0 && (c(key, n.key) > 0 ==> c(key, s[j].key) > 0) {
      NotAbove(c, s, i, k, j);
      Flip(c, key, n.key);
      Trans(c, s[j].key, n.key, key);
      Flip(c, key, s[j].key);
    }
    forall j | k <= j < |s| ensures c(key, s[j].key) < 0 {
      NextLead(c, s, b, n, a, i, k);
      assert k < j ==> c(s[k].key, s[j].key) <= 0;
      Flip(c, s[k].key, s[k].key);
      Trans(c, key, s[k].key, s[j].key);
    }
  }

  lemma NextLead(c: Comp, s: seq<Node>, b: seq<Node>, n: Node, a: seq<Node>, i: int, k: int)
    requires Led(c, s, b, n, a, i) && i < k < |s| && Starts(c, s, k)
    ensures s[k] in a
  {
    var w := b + [n] + a;
    assert s[k] in Elems(w);
    var y :| 0 <= y < |w| && w[y] == s[k];
    StartsAbove(c, s, i, k);
    assert w[|b|] == n;
    BeyondSelf(c, w, |b|, y);
    assert a[y - |b| - 1] == s[k];
  }

  lemma BeyondSelf(c: Comp, w: seq<Node>, x: int, y: int)
    requires Order(c) && Strict(c, w) && 0 <= x < |w| && 0 <= y < |w| && c(w[x].key, w[y].key) < 0
    ensures x < y
  {
    Flip(c, w[x].key, w[y].key);
  }

  lemma NotAbove(c: Comp, s: seq<Node>, i: int, k: int, j: int)
    requires Order(c) && Sorted(c, s) && 0 <= i < k <= |s| && 0 <= j < k
    requires forall j :: i < j < k ==> !Starts(c, s, j)
    ensures c(s[j].key, s[i].key) <= 0
    decreases j
  {
    Flip(c, s[i].key, s[j].key);
    if i < j {
      NotAbove(c, s, i, k, j - 1);
      hide Order;
      assert !Starts(c, s, j);
      Flip(c, s[j].key, s[j - 1].key);
      Trans(c, s[j].key, s[j - 1].key, s[i].key);
    }
  }

  lemma StartsAbove(c: Comp, s: seq<Node>, i: int, k: int)
    requires Order(c) && Sorted(c, s) && 0 <= i < k < |s| && Starts(c, s, k)
    ensures c(s[i].key, s[k].key) < 0
  {
    assert c(s[k - 1].key, s[k].key) < 0;
    assert i < k - 1 ==> c(s[i].key, s[k - 1].key) <= 0;
    Flip(c, s[i].key, s[i].key);
    Trans(c, s[i].key, s[k - 1].key, s[k].key);
  }

  lemma PutStrict(c: Comp, b: seq<Node>, n: Node, a: seq<Node>)
    requires Order(c) && Strict(c, b + a) && Under(c, b, n.key) && Over(c, a, n.key)
    ensures Strict(c, b + [n] + a)
  {
    hide Order;
    var w, w' := b + a, b + [n] + a;
    forall i, j | 0 <= i < j < |w'| ensures c(w'[i].key, w'[j].key) < 0 {
      if j == |b| {
        Flip(c, n.key, b[i].key);
      } else if i == |b| {
        assert w'[j] == a[j - |b| - 1];
      } else {
        assert w'[i] == w[if i < |b| then i else i - 1] && w'[j] == w[if j < |b| then j else j - 1];
      }
    }
  }

  /** Every run is a single node. */
  ghost predicate Single(c: Comp, s: seq<Node>) { forall i :: 0 <= i < |s| ==> Starts(c, s, i) }

  /** Exactly the first node of every run is marked. */
  ghost predicate Marked(c: Comp, s: seq<Node>)
    reads Elems(s)`leader
  {
    forall i :: 0 <= i < |s| ==> (s[i].leader <==> Starts(c, s, i))
  }

  // ----- the search path

  lemma OverFrom(c: Comp, w: seq<Node>, k: nat, key: Key)
    requires Order(c) && Strict(c, w) && k < |w| && c(key, w[k].key) < 0
    ensures Over(c, w[k..], key)
  {
    hide Order;
    forall i | k < i < |w| ensures c(key, w[i].key) < 0 {
      Trans(c, key, w[k].key, w[i].key);
    }
  }

  lemma UnderTo(c: Comp, w: seq<Node>, k: nat, key: Key)
    requires Order(c) && Strict(c, w) && k < |w| && c(key, w[k].key) > 0
    ensures Under(c, w[..k + 1], key)
  {
    hide Order;
    forall i | 0 <= i < k ensures c(key, w[i].key) > 0 {
      Flip(c, key, w[k].key);
      Trans(c, w[i].key, w[k].key, key);
      Flip(c, key, w[i].key);
    }
  }

  lemma SearchLeft(c: Comp, p: Path, t: Tree, key: Key)
    requires t.Bin? && Order(c) && Strict(c, Walk(Plug(p, t))) && c(key, t.node.key) < 0
    requires Under(c, Before(p), key) && Over(c, After(p), key)
    ensures var q := GoLeft(p, t.node, t.right);
            Under(c, Before(q), key) && Over(c, After(q), key) && Plug(q, t.left) == Plug(p, t)
  {
    hide Order, Strict, Under, Over;
    PlugWalk(p, t);
    var w, k := Walk(Plug(p, t)), |Before(p)| + |Walk(t.left)|;
    assert w[k..] == [t.node] + Walk(t.right) + After(p);
    OverFrom(c, w, k, key);
  }

  lemma SearchRight(c: Comp, p: Path, t: Tree, key: Key)
    requires t.Bin? && Order(c) && Strict(c, Walk(Plug(p, t))) && c(key, t.node.key) > 0
    requires Under(c, Before(p), key) && Over(c, After(p), key)
    ensures var q := GoRight(p, t.left, t.node);
            Under(c, Before(q), key) && Over(c, After(q), key) && Plug(q, t.right) == Plug(p, t)
  {
    hide Order, Strict, Under, Over;
    PlugWalk(p, t);
    var w, k := Walk(Plug(p, t)), |Before(p)| + |Walk(t.left)|;
    assert w[..k + 1] == Before(p) + Walk(t.left) + [t.node];
    UnderTo(c, w, k, key);
  }

  lemma PutSingle(c: Comp, s: seq<Node>, n: Node, k: int)
    requires Order(c) && Sorted(c, s) && 0 <= k <= |s| && Fits(c, s, n.key, k)
    requires Single(c, s) && Absent(c, s, n.key)
    ensures Single(c, Put(s, k, n))
  {
    hide Order, Sorted, Starts, Put;
    forall i | 0 <= i < |Put(s, k, n)| ensures Starts(c, Put(s, k, n), i) {
      PutStarts(c, s, n, k, i);
    }
  }

  lemma PutMarked(c: Comp, s: seq<Node>, n: Node, k: int)
    requires Order(c) && Sorted(c, s) && 0 <= k <= |s| && Fits(c, s, n.key, k) && n !in s
    requires Marked(c, s) && (n.leader <==> k == 0 || c(n.key, s[k - 1].key) > 0)
    ensures Marked(c, Put(s, k, n))
  {
    hide Order, Sorted, Fits, Starts, Put;
    var s' := Put(s, k, n);
    forall i | 0 <= i < |s'| ensures s'[i].leader <==> Starts(c, s', i) {
      PutStarts(c, s, n, k, i);
    }
  }

  lemma Split(p: Path, l: Tree, n: Node, r: Tree)
    ensures Walk(Plug(p, Bin(l, n, r))) == (Before(p) + Walk(l)) + [n] + (Walk(r) + After(p))
  {
    PlugWalk(p, Bin(l, n, r));
    assert Before(p) + (Walk(l) + [n] + Walk(r)) + After(p) == (Before(p) + Walk(l)) + [n] + (Walk(r) + After(p));
  }

  /** Where a leader found in the tree is in the list. */
  lemma Locate(c: Comp, s: seq<Node>, p: Path, l: Tree, n: Node, r: Tree) returns (i: int)
    requires Order(c) && Sorted(c, s) && NoDup(s)
    requires Strict(c, Walk(Plug(p, Bin(l, n, r)))) && Nodes(Plug(p, Bin(l, n, r))) == Leads(c, s)
    ensures Led(c, s, Before(p) + Walk(l), n, Walk(r) + After(p), i)
  {
    hide Order, Sorted, NoDup, Starts;
    var t := Plug(p, Bin(l, n, r));
    var b, a := Before(p) + Walk(l), Walk(r) + After(p);
    WalkNodes(t);
    Split(p, l, n, r);
    hide Walk, Before, After;
    assert (b + [n] + a)[|b|] == n && n in Elems(b + [n] + a);
    i :| 0 <= i < |s| && Starts(c, s, i) && s[i] == n;
  }

  lemma ElemsPut(s: seq<Node>, k: int, n: Node)
    requires 0 <= k <= |s|
    ensures Elems(Put(s, k, n)) == Elems(s) + {n}
  {
    assert s == s[..k] + s[k..];
  }

  lemma ElemsCut(s: seq<Node>, k: int)
    requires 0 <= k < |s| && NoDup(s)
    ensures Elems(Cut(s, k)) == Elems(s) - {s[k]}
  {
    assert s == s[..k] + [s[k]] + s[k + 1..];
  }

  lemma NoLeads(c: Comp, s: seq<Node>)
    ensures s == [] <==> Leads(c, s) == {}
  {
    if s != [] {
      assert Starts(c, s, 0) && s[0] in Leads(c, s);
    }
  }

  lemma OneEntry(c: Comp, n: Node)
    ensures Sorted(c, [n]) && Strict(c, [n]) && Single(c, [n]) && Leads(c, [n]) == {n}
    ensures Absent(c, [], n.key) && Slot(c, [], n.key) == 0 && Put([], 0, n) == [n]
    ensures n.leader ==> Marked(c, [n])
  {
    assert Starts(c, [n], 0) && [n][0] in Leads(c, [n]);
  }

  /** What the list is after `n` went behind all that are not greater. */
  lemma PutAll(c: Comp, s: seq<Node>, n: Node, k: int)
    requires Order(c) && Sorted(c, s) && n !in s && 0 <= k <= |s| && Fits(c, s, n.key, k)
    ensures Leads(c, Put(s, k, n)) == Leads(c, s) + (if Absent(c, s, n.key) then {n} else {})
    ensures Sorted(c, Put(s, k, n)) && k == Slot(c, s, n.key)
    ensures Absent(c, s, n.key) <==> k == 0 || c(n.key, s[k - 1].key) > 0
    ensures Absent(c, s, n.key) && Single(c, s) ==> Single(c, Put(s, k, n))
  {
    PutSorted(c, s, n, k);
    PutLeads(c, s, n, k);
    FitsSlot(c, s, n.key, k);
    AbsentAt(c, s, n.key, k);
    if Absent(c, s, n.key) && Single(c, s) {
      PutSingle(c, s, n, k);
    }
  }

  lemma AbsentAt(c: Comp, s: seq<Node>, key: Key, k: int)
    requires Order(c) && Sorted(c, s) && 0 <= k <= |s| && Fits(c, s, key, k)
    ensures Absent(c, s, key) <==> k == 0 || c(key, s[k - 1].key) > 0
  {
    if 0 < k && c(key, s[k - 1].key) > 0 {
      var x := s[k - 1].key;
      forall i | 0 <= i < k - 1 ensures c(key, s[i].key) > 0 {
        assert c(s[i].key, x) <= 0;
        hide Order, Sorted;
        Flip(c, key, x);
        Trans(c, s[i].key, x, key);
        Flip(c, key, s[i].key);
      }
    }
  }

  lemma IsPresent(c: Comp, s: seq<Node>, i: int, key: Key)
    requires 0 <= i < |s| && c(key, s[i].key) == 0
    ensures !Absent(c, s, key)
  {
  }

  lemma OverAll(c: Comp, s: seq<Node>, b: seq<Node>, n: Node, a: seq<Node>, i: int, key: Key)
    requires Led(c, s, b, n, a, i) && c(key, n.key) <= 0
    ensures Over(c, a, key)
  {
    var w := b + [n] + a;
    forall j | 0 <= j < |a| ensures c(key, a[j].key) < 0 {
      assert w[|b|] == n && w[|b| + 1 + j] == a[j];
      assert c(w[|b|].key, w[|b| + 1 + j].key) < 0;
      hide Order, Strict, Led;
      Trans(c, key, n.key, a[j].key);
    }
  }

  lemma ElemsMid(b: seq<Node>, x: Node, a: seq<Node>)
    ensures Elems(b + [x] + a) == Elems(b + a) + {x}
  {
  }

  /** The walk with a new leader before `n`, or after it. */
  lemma WalkBefore(c: Comp, p: Path, n: Node, r: Tree, x: Node)
    requires Order(c) && Strict(c, Walk(Plug(p, Bin(Leaf, n, r)))) && c(x.key, n.key) < 0
    requires Under(c, Before(p), x.key) && Over(c, After(p), x.key)
    ensures var w' := Before(p) + ([x] + Walk(Bin(Leaf, n, r))) + After(p);
            Strict(c, w') && Elems(w') == Elems(Walk(Plug(p, Bin(Leaf, n, r)))) + {x}
  {
    hide Order, Strict, Under, Over, Elems, Plug;
    var t := Bin(Leaf, n, r);
    SearchLeft(c, p, t, x.key);
    PlugWalk(p, t);
    var b, a := Before(p), [n] + Walk(r) + After(p);
    assert Walk(t) == [n] + Walk(r);
    assert b + Walk(t) + After(p) == b + a;
    assert b + ([x] + Walk(t)) + After(p) == b + [x] + a;
    PutStrict(c, b, x, a);
    ElemsMid(b, x, a);
  }

  lemma WalkAfter(c: Comp, p: Path, l: Tree, n: Node, x: Node)
    requires Order(c) && Strict(c, Walk(Plug(p, Bin(l, n, Leaf)))) && c(x.key, n.key) > 0
    requires Under(c, Before(p), x.key) && Over(c, After(p), x.key)
    ensures var w' := Before(p) + (Walk(Bin(l, n, Leaf)) + [x]) + After(p);
            Strict(c, w') && Elems(w') == Elems(Walk(Plug(p, Bin(l, n, Leaf)))) + {x}
  {
    hide Order, Strict, Under, Over, Elems, Plug;
    var t := Bin(l, n, Leaf);
    SearchRight(c, p, t, x.key);
    PlugWalk(p, t);
    var b, a := Before(p) + Walk(l) + [n], After(p);
    assert Walk(t) == Walk(l) + [n];
    assert Before(p) + Walk(t) + a == b + a;
    assert Before(p) + (Walk(t) + [x]) + a == b + [x] + a;
    PutStrict(c, b, x, a);
    ElemsMid(b, x, a);
  }

  /** A new leader belongs right before the leader `n`. */
  lemma PlaceBefore(c: Comp, s: seq<Node>, p: Path, n: Node, r: Tree, i: int, x: Node)
    requires Led(c, s, Before(p) + Walk(Leaf), n, Walk(r) + After(p), i) && c(x.key, n.key) < 0
    requires Under(c, Before(p), x.key)
    ensures Fits(c, s, x.key, i) && Absent(c, s, x.key)
  {
    hide Order, Under, Fits, Absent, Strict, Elems, Before, After;
    assert Before(p) + Walk(Leaf) == Before(p);
    FitsBefore(c, s, Before(p), n, Walk(r) + After(p), i, x.key);
  }

  /** A new leader belongs right behind the run of the leader `n`. */
  lemma PlaceAfter(c: Comp, s: seq<Node>, p: Path, l: Tree, n: Node, i: int, k: int, x: Node)
    requires Led(c, s, Before(p) + Walk(l), n, Walk(Leaf) + After(p), i) && c(x.key, n.key) > 0
    requires Over(c, After(p), x.key) && RunTo(c, s, i, k)
    ensures 0 <= k <= |s| && Fits(c, s, x.key, k) && Absent(c, s, x.key)
  {
    hide Order, Over, Fits, Absent, Strict, Elems, Before, After, Starts;
    assert Walk(Leaf) + After(p) == After(p);
    FitsAfter(c, s, Before(p) + Walk(l), n, After(p), i, k, x.key);
  }

  lemma Stranger(p: Path, t: Tree, x: Node)
    requires x !in Nodes(Plug(p, t))
    ensures x !in PathNodes(p) && x !in Nodes(t)
  {
    PlugDistinct(p, t);
  }

  // ----- taking a node out

  ghost function Index(s: seq<Node>, n: Node): (k: nat)
    requires n in s
    ensures k < |s| && s[k] == n
  {
    if s[0] == n then 0 else 1 + Index(s[1..], n)
  }

  /** The marks are right for the time when the node at `k` is gone. */
  ghost predicate MarkedBut(c: Comp, s: seq<Node>, k: int)
    requires 0 <= k < |s|
    reads Elems(s)`leader
  {
    forall i :: 0 <= i < |s| && i != k ==>
      (s[i].leader <==> Starts(c, s, i) || (i == k + 1 && HasHeir(c, s, k)))
  }

  lemma HeirKey(c: Comp, s: seq<Node>, k: int)
    requires 0 <= k < |s| && HasHeir(c, s, k)
    ensures k + 1 < |s| && Starts(c, s, k) && !Starts(c, s, k + 1) && c(s[k].key, s[k + 1].key) == 0
  {
  }

  /** ... and then that time has come. */
  lemma CutMarked(c: Comp, s: seq<Node>, k: int)
    requires Order(c) && Sorted(c, s) && NoDup(s) && 0 <= k < |s|
    requires MarkedBut(c, s, k)
    ensures Marked(c, Cut(s, k)) && (Single(c, s) ==> Single(c, Cut(s, k)))
  {
    hide Order, Sorted, Starts, Cut;
    forall i | 0 <= i < |s| - 1
      ensures Cut(s, k)[i].leader <==> Starts(c, Cut(s, k), i)
      ensures Single(c, s) ==> Starts(c, Cut(s, k), i)
    {
      CutStarts(c, s, k, i);
    }
  }

  /** An equal key may take the place of another. */
  lemma StrictSwap(c: Comp, b: seq<Node>, n: Node, a: seq<Node>, x: Node)
    requires Order(c) && Strict(c, b + [n] + a) && c(n.key, x.key) == 0
    ensures Strict(c, b + [x] + a)
  {
    var w, w' := b + [n] + a, b + [x] + a;
    forall i, j | 0 <= i < j < |w'| ensures c(w'[i].key, w'[j].key) < 0 {
      assert c(w[i].key, w[j].key) < 0;
      hide Order, Strict;
      Flip(c, n.key, x.key);
      if i == |b| { Trans(c, x.key, n.key, w[j].key); }
      if j == |b| { Trans(c, w[i].key, n.key, x.key); }
    }
  }

  lemma StrictCut(c: Comp, b: seq<Node>, n: Node, a: seq<Node>)
    requires Strict(c, b + [n] + a)
    ensures Strict(c, b + a)
  {
    var w, w' := b + [n] + a, b + a;
    forall i, j | 0 <= i < j < |w'| ensures c(w'[i].key, w'[j].key) < 0 {
      assert w'[i] == w[if i < |b| then i else i + 1] && w'[j] == w[if j < |b| then j else j + 1];
    }
  }

  /** The walk when `x` has taken the place of `n`. */
  lemma SwapWalk(c: Comp, p: Path, l: Tree, n: Node, r: Tree, x: Node)
    requires Order(c) && Strict(c, Walk(Plug(p, Bin(l, n, r)))) && c(n.key, x.key) == 0
    requires Distinct(Plug(p, Bin(l, n, r)))
    ensures Strict(c, Walk(Plug(p, Bin(l, x, r))))
    ensures Nodes(Plug(p, Bin(l, x, r))) == Nodes(Plug(p, Bin(l, n, r))) - {n} + {x}
  {
    hide Order, Strict, Plug;
    Split(p, l, n, r);
    Split(p, l, x, r);
    StrictSwap(c, Before(p) + Walk(l), n, Walk(r) + After(p), x);
    PlugDistinct(p, Bin(l, n, r));
    PlugDistinct(p, Bin(l, x, r));
  }

  /** The walk without `n`. */
  lemma CutWalk(c: Comp, p: Path, l: Tree, n: Node, r: Tree)
    requires Strict(c, Walk(Plug(p, Bin(l, n, r)))) && Distinct(Plug(p, Bin(l, n, r)))
    ensures var w := Before(p) + Walk(l) + Walk(r) + After(p);
            Strict(c, w) && Elems(w) == Nodes(Plug(p, Bin(l, n, r))) - {n}
  {
    hide Strict, Plug, Distinct, Before, After, Walk;
    var b, a := Before(p) + Walk(l), Walk(r) + After(p);
    Split(p, l, n, r);
    assert Before(p) + Walk(l) + Walk(r) + After(p) == b + a;
    StrictCut(c, b, n, a);
    WalkNodes(Plug(p, Bin(l, n, r)));
    WalkNoDup(Plug(p, Bin(l, n, r)));
    ElemsMid(b, n, a);
    OnlyOnce(b, n, a);
  }

  lemma OnlyOnce(b: seq<Node>, n: Node, a: seq<Node>)
    requires NoDup(b + [n] + a)
    ensures n !in Elems(b + a)
  {
    var w := b + [n] + a;
    assert w[|b|] == n;
    forall i | 0 <= i < |b + a| ensures (b + a)[i] != n {
      assert (b + a)[i] == w[if i < |b| then i else i + 1];
    }
  }

  lemma LeadsAt(c: Comp, s: seq<Node>, k: int)
    requires NoDup(s) && 0 <= k < |s|
    ensures s[k] in Leads(c, s) <==> Starts(c, s, k)
  {
    if s[k] in Leads(c, s) {
      var i :| 0 <= i < |s| && Starts(c, s, i) && s[i] == s[k];
      Differ(s, i, k);
    }
  }

  lemma LeadsWithin(c: Comp, s: seq<Node>)
    ensures Leads(c, s) <= Elems(s)
  {
  }

  // ----- what the searches look for

  /** The first position whose key is not less than `key`. */
  ghost function LowSlot(c: Comp, s: seq<Node>, key: Key): (k: nat)
    ensures k <= |s|
  {
    if s == [] || c(key, s[0].key) <= 0 then 0 else 1 + LowSlot(c, s[1..], key)
  }

  lemma {:induction false} IsLowSlot(c: Comp, s: seq<Node>, key: Key, k: int)
    requires 0 <= k <= |s| && (forall i :: 0 <= i < k ==> c(key, s[i].key) > 0)
    requires k < |s| ==> c(key, s[k].key) <= 0
    ensures k == LowSlot(c, s, key)
  {
    if 0 < k {
      var s' := s[1..];
      assert k < |s| ==> s'[k - 1] == s[k];
      IsLowSlot(c, s', key, k - 1);
    }
  }

  lemma {:induction false} IsSlot(c: Comp, s: seq<Node>, key: Key, k: int)
    requires 0 <= k <= |s| && (forall i :: 0 <= i < k ==> c(key, s[i].key) >= 0)
    requires k < |s| ==> c(key, s[k].key) < 0
    ensures k == Slot(c, s, key)
  {
    if 0 < k {
      var s' := s[1..];
      assert k < |s| ==> s'[k - 1] == s[k];
      IsSlot(c, s', key, k - 1);
    }
  }

  /** Below a position whose key is not greater, keys are not greater. */
  lemma DownFrom(c: Comp, s: seq<Node>, key: Key, i: int)
    requires Order(c) && Sorted(c, s) && 0 <= i < |s| && c(key, s[i].key) >= 0
    ensures forall j :: 0 <= j <= i ==> c(key, s[j].key) >= 0
    ensures c(key, s[i].key) > 0 ==> forall j :: 0 <= j <= i ==> c(key, s[j].key) > 0
    ensures Starts(c, s, i) ==> forall j :: 0 <= j < i ==> c(key, s[j].key) > 0
  {
    forall j | 0 <= j < i
      ensures c(key, s[j].key) >= 0
      ensures c(key, s[i].key) > 0 || Starts(c, s, i) ==> c(key, s[j].key) > 0
    {
      if Starts(c, s, i) { StartsAbove(c, s, j, i); }
      assert c(s[j].key, s[i].key) <= 0;
      hide Order, Sorted;
      Flip(c, key, s[i].key);
      Trans(c, s[j].key, s[i].key, key);
      Flip(c, key, s[j].key);
    }
  }

  /** A position is told by its two neighbours. */
  lemma SlotAt(c: Comp, s: seq<Node>, key: Key, k: int)
    requires Order(c) && Sorted(c, s) && 0 <= k <= |s|
    requires (0 < k ==> c(key, s[k - 1].key) >= 0) && (k < |s| ==> c(key, s[k].key) < 0)
    ensures k == Slot(c, s, key)
  {
    if 0 < k { DownFrom(c, s, key, k - 1); }
    IsSlot(c, s, key, k);
  }

  lemma LowSlotAt(c: Comp, s: seq<Node>, key: Key, k: int)
    requires Order(c) && Sorted(c, s) && 0 <= k <= |s|
    requires (0 < k ==> c(key, s[k - 1].key) > 0) && (k < |s| ==> c(key, s[k].key) <= 0)
    ensures k == LowSlot(c, s, key)
  {
    if 0 < k { DownFrom(c, s, key, k - 1); }
    IsLowSlot(c, s, key, k);
  }

  /** A search that ends at `n` without finding the key proves it absent. */
  lemma NotFound(c: Comp, s: seq<Node>, p: Path, l: Tree, n: Node, r: Tree, i: int, key: Key)
    requires Led(c, s, Before(p) + Walk(l), n, Walk(r) + After(p), i)
    requires Under(c, Before(p), key) && Over(c, After(p), key)
    requires (c(key, n.key) < 0 && l.Leaf?) || (c(key, n.key) > 0 && r.Leaf?)
    ensures Absent(c, s, key)
  {
    hide Order, Under, Over, Fits, Absent, Strict, Elems, Before, After, Starts;
    if c(key, n.key) < 0 {
      assert Before(p) + Walk(Leaf) == Before(p);
      FitsBefore(c, s, Before(p), n, Walk(r) + After(p), i, key);
    } else {
      assert Walk(Leaf) + After(p) == After(p);
      var k := Run(c, s, i + 1);
      FitsAfter(c, s, Before(p) + Walk(l), n, After(p), i, k, key);
    }
  }
}
