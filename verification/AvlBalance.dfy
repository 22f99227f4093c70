/** Heights and walks of the trees that single and double rotations make. */
module AvlBalance {
  import opened AvlShape
  import opened AvlRotate

  /** `u` is the finished tree for the unfinished `t` below `p`. */
  ghost predicate Done(m: Mem, root: Node?, u: Tree, p: Path, t: Tree) {
    Hangs(m, root, Top, u) && Balanced(u) && Walk(u) == Walk(Plug(p, t)) && Nodes(u) == Nodes(Plug(p, t))
  }

  /** Everything is in order, seen from the subtree `t` below the path `p`. */
  ghost predicate Sound(m: Mem, root: Node?, p: Path, t: Tree) {
    Hangs(m, root, p, t) && Stored(m, p, Height(t)) && Balanced(t) && PathBalanced(p, Height(t))
  }

  /** It does not matter from where one looks. */
  lemma SoundAnywhere(m: Mem, root: Node?, p: Path, t: Tree, q: Path, u: Tree)
    requires Sound(m, root, p, t) && Plug(p, t) == Plug(q, u)
    ensures Sound(m, root, q, u)
  {
    hide Hangs, Stored, Balanced, PathBalanced, Height;
    Place(m, root, p, t);
    Place(m, root, q, u);
  }

  /** `u` is the finished tree with the given walk. */
  ghost predicate Whole(m: Mem, root: Node?, u: Tree, w: seq<Node>) {
    Sound(m, root, Top, u) && Walk(u) == w
  }

  lemma DoneIsWhole(m: Mem, root: Node?, u: Tree, p: Path, t: Tree)
    requires Done(m, root, u, p, t)
    ensures Whole(m, root, u, Within(p, Walk(t)))
  {
    PlugWalk(p, t);
  }

  lemma SoundIsWhole(m: Mem, root: Node?, p: Path, t: Tree)
    requires Sound(m, root, p, t)
    ensures Whole(m, root, Plug(p, t), Within(p, Walk(t)))
  {
    hide Hangs, Stored, Balanced, PathBalanced, Height, Walk;
    PlugWalk(p, t);
    SoundAnywhere(m, root, p, t, Top, Plug(p, t));
  }

  ghost predicate SameNodes(t: Tree, t': Tree) { Walk(t) == Walk(t') && Nodes(t) == Nodes(t') }

  lemma Settle(m: Mem, root: Node?, p: Path, t: Tree, t': Tree)
    requires Hangs(m, root, p, t') && Stored(m, p, Height(t'))
    requires Balanced(t') && PathBalanced(p, Height(t')) && SameNodes(t, t')
    ensures Done(m, root, Plug(p, t'), p, t)
  {
    hide Hangs, Stored, Balanced, PathBalanced, Height;
    Place(m, root, p, t);
    Place(m, root, p, t');
  }

  lemma PlugSame(p: Path, t: Tree, t': Tree)
    requires SameNodes(t, t')
    ensures SameNodes(Plug(p, t), Plug(p, t'))
  {
    PlugWalk(p, t);
    PlugWalk(p, t');
    PlugDistinct(p, t);
    PlugDistinct(p, t');
  }

  lemma TurnSame(a: Tree, l: Node, b: Tree, n: Node, c: Tree)
    ensures SameNodes(Bin(Bin(a, l, b), n, c), Bin(a, l, Bin(b, n, c)))
  {
    assert Walk(a) + [l] + Walk(b) + [n] + Walk(c) == Walk(a) + [l] + (Walk(b) + [n] + Walk(c));
  }

  /** Left child one too high, and leaning left or (in a deletion) even. */
  lemma SingleRight(a: Tree, l: Node, b: Tree, n: Node, c: Tree)
    requires Balanced(Bin(a, l, b)) && Balanced(c)
    requires Height(b) <= Height(a) && Height(Bin(a, l, b)) == Height(c) + 2
    ensures var t' := Bin(a, l, Bin(b, n, c));
            && Balanced(t') && Height(t') == (if Height(b) < Height(a) then Height(c) + 2 else Height(c) + 3)
            && SameNodes(Bin(Bin(a, l, b), n, c), t')
  {
    TurnSame(a, l, b, n, c);
  }

  lemma SingleLeft(a: Tree, n: Node, b: Tree, r: Node, c: Tree)
    requires Balanced(Bin(b, r, c)) && Balanced(a)
    requires Height(b) <= Height(c) && Height(Bin(b, r, c)) == Height(a) + 2
    ensures var t' := Bin(Bin(a, n, b), r, c);
            && Balanced(t') && Height(t') == (if Height(b) < Height(c) then Height(a) + 2 else Height(a) + 3)
            && SameNodes(Bin(a, n, Bin(b, r, c)), t')
  {
    TurnSame(a, n, b, r, c);
  }

  /** Left child one too high and leaning right. */
  lemma DoubleRight(a: Tree, l: Node, b: Tree, x: Node, c: Tree, n: Node, d: Tree)
    requires Balanced(Bin(a, l, Bin(b, x, c))) && Balanced(d)
    requires Height(a) < Height(Bin(b, x, c)) && Height(Bin(a, l, Bin(b, x, c))) == Height(d) + 2
    ensures Height(Bin(Bin(a, l, b), x, c)) == Height(d) + 2
    ensures var t' := Bin(Bin(a, l, b), x, Bin(c, n, d));
            && Balanced(t') && Height(t') == Height(d) + 2
            && SameNodes(Bin(Bin(a, l, Bin(b, x, c)), n, d), t')
  {
    TurnSame(a, l, b, x, c);
    TurnSame(Bin(a, l, b), x, c, n, d);
    assert Balanced(Bin(b, x, c));
  }

  lemma DoubleLeft(a: Tree, n: Node, b: Tree, x: Node, c: Tree, r: Node, d: Tree)
    requires Balanced(Bin(Bin(b, x, c), r, d)) && Balanced(a)
    requires Height(d) < Height(Bin(b, x, c)) && Height(Bin(Bin(b, x, c), r, d)) == Height(a) + 2
    ensures Height(Bin(b, x, Bin(c, r, d))) == Height(a) + 2
    ensures var t' := Bin(Bin(a, n, b), x, Bin(c, r, d));
            && Balanced(t') && Height(t') == Height(a) + 2
            && SameNodes(Bin(a, n, Bin(Bin(b, x, c), r, d)), t')
  {
    TurnSame(b, x, c, r, d);
    TurnSame(a, n, b, x, Bin(c, r, d));
    assert Balanced(Bin(b, x, c));
  }

  lemma Tall(t: Tree)
    ensures t.Bin? <==> Height(t) > 0
  {
  }

  lemma Lean(t: Tree)
    requires Balanced(t) && Height(t) >= 2
    ensures t.Bin? && -1 <= Height(t.right) - Height(t.left) <= 1
  {
  }

  /** One level up from the subtree `t`, whose height changed from `h` by one:
      `u` is the subtree there and `k` the height it had. */
  lemma OneUp(p: Path, t: Tree, h: int, u: Tree, k: int)
    requires !p.Top? && Balanced(t) && PathBalanced(p, h) && (h == Height(t) - 1 || h == Height(t) + 1)
    requires u == Up(p, t) && k == 1 + Max(h, Height(Sibling(p)))
    ensures -1 <= Height(Sibling(p)) - h <= 1 && Balanced(Sibling(p)) && PathBalanced(p.up, k)
    ensures Height(u) == 1 + Max(Height(t), Height(Sibling(p)))
    ensures -1 <= Height(Sibling(p)) - Height(t) <= 1 ==> Balanced(u)
    ensures t.Bin? ==> -1 <= Height(t.right) - Height(t.left) <= 1
    ensures Plug(p, t) == Plug(p.up, u)
  {
    hide Height, Balanced, PathBalanced, Plug;
    UpIs(p, t, h);
    if t.Bin? { Even(t); }
  }

  lemma Even(t: Tree)
    requires Balanced(t) && t.Bin?
    ensures -1 <= Height(t.right) - Height(t.left) <= 1
  {
  }

  lemma SpliceOut(x: seq<Node>, n: Node, min: Node, y: seq<Node>, a: seq<Node>, b: seq<Node>)
    requires NoDup(x + [n] + [min] + y) && x + [n] + y == a + [n] + b
    ensures a == x && b == y && min !in Elems(x + [n] + y)
  {
    var w, v := x + [n] + [min] + y, x + [n] + y;
    assert w[|x| + 1] == min;
    forall i | 0 <= i < |v| ensures v[i] == w[if i <= |x| then i else i + 1] && v[i] != min {}
    OnePosition(x, y, a, b, n);
  }

  lemma Regroup(b: seq<Node>, l: seq<Node>, n: Node, r: seq<Node>, a: seq<Node>, min: Node, rm: seq<Node>, e: seq<Node>)
    requires b + (l + [n] + r) + a == (b + l + [n]) + ([] + [min] + rm) + e
    ensures (b + l + [n]) + ([] + [min] + rm) + e == (b + l) + [n] + [min] + (rm + e)
    ensures (b + l + [n]) + [] + rm + e == (b + l) + [n] + (rm + e)
    ensures (b + l) + ([min] + (rm + e)) == b + l + r + a
  {
    var x, y := b + l + [n], [min] + (rm + e);
    assert b + (l + [n] + r) + a == x + (r + a);
    assert x + ([] + [min] + rm) + e == x + y;
    assert r + a == (x + (r + a))[|x|..] == (x + y)[|x|..] == y;
    assert b + l + r + a == b + l + (r + a);
  }

  /** After the successor of `n` has been taken out of the tree, `n` is found
      at some new place, with the same neighbours. */
  lemma AfterMin(m: Mem, root: Node?, m': Mem, root': Node?, p: Path, l: Tree, n: Node, r: Tree,
                 q: Path, min: Node, rm: Tree, u: Tree) returns (q': Path, l': Tree, r': Tree)
    requires Sound(m, root, p, Bin(l, n, r))
    requires Plug(q, Bin(Leaf, min, rm)) == Plug(p, Bin(l, n, r)) && Before(q) == Before(GoRight(p, l, n))
    requires Whole(m', root', u, Joint(q, Leaf, rm))
    ensures Sound(m', root', q', Bin(l', n, r'))
    ensures Apart(min, q', Bin(l', n, r'))
    ensures Within(q', Walk(Bin(l', min, r'))) == Joint(p, l, r)
  {
    hide Hangs, Stored, Balanced, PathBalanced, Height, PathNodes, Nodes, Distinct, Plug;
    var x, y := Before(p) + Walk(l), Walk(rm) + After(q);
    SoundDistinct(m, root, p, Bin(l, n, r));
    WalkNoDup(Plug(p, Bin(l, n, r)));
    PlugWalk(p, Bin(l, n, r));
    PlugWalk(q, Bin(Leaf, min, rm));
    Regroup(Before(p), Walk(l), n, Walk(r), After(p), min, Walk(rm), After(q));
    q', l', r' := FindAgain(m', root', u, x, n, min, y);
  }

  lemma SoundDistinct(m: Mem, root: Node?, p: Path, t: Tree)
    requires Sound(m, root, p, t)
    ensures Distinct(Plug(p, t))
  {
    PlugDistinct(p, t);
  }

  lemma FindAgain(m: Mem, root: Node?, u: Tree, x: seq<Node>, n: Node, min: Node, y: seq<Node>)
    returns (q: Path, l: Tree, r: Tree)
    requires Sound(m, root, Top, u) && Walk(u) == x + [n] + y && NoDup(x + [n] + [min] + y)
    ensures Sound(m, root, q, Bin(l, n, r))
    ensures Apart(min, q, Bin(l, n, r))
    ensures Within(q, Walk(Bin(l, min, r))) == x + ([min] + y)
  {
    hide Hangs, Stored, Balanced, PathBalanced, Height, PathNodes, Nodes, Distinct, Before, After;
    WalkNodes(u);
    assert (x + [n] + y)[|x|] == n;
    assert n in Elems(Walk(u));
    q, l, r := Zoom(Top, u, n);
    SoundAnywhere(m, root, Top, u, q, Bin(l, n, r));
    PlugWalk(q, Bin(l, n, r));
    PlugDistinct(q, Bin(l, n, r));
    var a, b := Before(q) + Walk(l), Walk(r) + After(q);
    assert Before(q) + (Walk(l) + [n] + Walk(r)) + After(q) == a + [n] + b;
    SpliceOut(x, n, min, y, a, b);
    assert Before(q) + (Walk(l) + [min] + Walk(r)) + After(q) == a + ([min] + b);
  }

  /** A node with `t` as its only child. */
  lemma Lonely(l: Tree, n: Node, r: Tree, t: Tree)
    requires Balanced(Bin(l, n, r)) && t.Bin? && if l.Leaf? then t == r else r.Leaf? && t == l
    ensures Height(Bin(l, n, r)) == Height(t) + 1 && Balanced(t) && Walk(t) == Walk(l) + Walk(r)
  {
  }

  lemma Outside(l: Tree, n: Node, r: Tree, x: Node)
    requires x !in Nodes(Bin(l, n, r))
    ensures x !in Opt(Root(l)) + {n} + Opt(Root(r))
  {
  }

  /** The child takes the place of the node. */
  lemma MovedUp(m: Mem, m': Mem, root: Node?, root': Node?, p: Path, l: Tree, n: Node, r: Tree, t: Tree)
    requires Hangs(m, root, p, Bin(l, n, r)) && t.Bin? && if l.Leaf? then t == r else r.Leaf? && t == l
    requires m'.Keys == m.Keys && Agree(m, m', m.Keys - ({t.node} + Opt(Above(p))))
    requires Rehung(m, m', root, root', p, t.node)
    requires m'[t.node] == Adopted(m[t.node], Above(p))
    ensures Hangs(m', root', p, t) && SameSpine(m, m', p)
  {
    assert Nodes(t) <= Nodes(Bin(l, n, r));
    assert Linked(m, t) && Distinct(t);
    ReparentTree(m, m', t);
    Swap(m, m', root, root', p, Bin(l, n, r), t);
  }

  /** Nodes outside the tree do not matter. */
  lemma Widen(m: Mem, m': Mem, root: Node?, t: Tree)
    requires Sound(m, root, Top, t) && m.Keys <= m'.Keys && Agree(m, m', m.Keys)
    ensures Sound(m', root, Top, t)
  {
    KeepTree(m, m', t);
  }

  /** ... so they may be dropped from the snapshot. */
  lemma Narrow(m: Mem, m': Mem, root: Node?, t: Tree)
    requires Sound(m, root, Top, t) && Nodes(t) <= m'.Keys <= m.Keys && Agree(m, m', m'.Keys)
    ensures Sound(m', root, Top, t)
  {
    KeepTree(m, m', t);
  }

  /** A new leaf below `n` on the left, with the balance of `n` set right. */
  lemma {:induction false} NewLeft(m: Mem, m': Mem, root: Node?, p: Path, n: Node, r: Tree, x: Node)
    requires Hangs(m, root, p, Bin(Leaf, n, r)) && m'.Keys == m.Keys
    requires x in m && Apart(x, p, Bin(Leaf, n, r))
    requires Agree(m, m', m.Keys - {n, x})
    requires m'[n] == m[n].(left := x, balance := Height(r) - 1)
    requires m'[x] == Fields(n, null, null, 0)
    ensures Hangs(m', root, p, Bin(Bin(Leaf, x, Leaf), n, r)) && SameSpine(m, m', p)
  {
    var t := Bin(Bin(Leaf, x, Leaf), n, r);
    KeepTree(m, m', r);
    KeepPath(m, m', p, n);
    AgreeSpine(m, m', p);
    assert Linked(m', Bin(Leaf, x, Leaf)) && Linked(m', t);
    assert Distinct(Bin(Leaf, x, Leaf));
  }

  lemma {:induction false} NewRight(m: Mem, m': Mem, root: Node?, p: Path, l: Tree, n: Node, x: Node)
    requires Hangs(m, root, p, Bin(l, n, Leaf)) && m'.Keys == m.Keys
    requires x in m && Apart(x, p, Bin(l, n, Leaf))
    requires Agree(m, m', m.Keys - {n, x})
    requires m'[n] == m[n].(right := x, balance := 1 - Height(l))
    requires m'[x] == Fields(n, null, null, 0)
    ensures Hangs(m', root, p, Bin(l, n, Bin(Leaf, x, Leaf))) && SameSpine(m, m', p)
  {
    var t := Bin(l, n, Bin(Leaf, x, Leaf));
    KeepTree(m, m', l);
    KeepPath(m, m', p, n);
    AgreeSpine(m, m', p);
    assert Linked(m', Bin(Leaf, x, Leaf)) && Linked(m', t);
    assert Distinct(Bin(Leaf, x, Leaf));
  }

  /** The subtree with the new leaf, by the balance of the node it hangs on. */
  lemma LeafGrows(l: Tree, n: Node, r: Tree, x: Node)
    requires Balanced(Bin(l, n, r))
    ensures l.Leaf? ==>
            var t := Bin(Bin(Leaf, x, Leaf), n, r);
            && 0 <= Height(r) <= 1 && Balanced(t) && Walk(t) == [x] + Walk(Bin(l, n, r))
            && Height(t) == Height(Bin(l, n, r)) + (if Height(r) == 0 then 1 else 0)
    ensures r.Leaf? ==>
            var t := Bin(l, n, Bin(Leaf, x, Leaf));
            && 0 <= Height(l) <= 1 && Balanced(t) && Walk(t) == Walk(Bin(l, n, r)) + [x]
            && Height(t) == Height(Bin(l, n, r)) + (if Height(l) == 0 then 1 else 0)
  {
    if l.Leaf? { assert Height(Bin(Leaf, x, Leaf)) == 1; }
    if r.Leaf? { assert Height(Bin(Leaf, x, Leaf)) == 1; }
  }

  lemma OneNode(m: Mem, n: Node)
    requires n in m && m[n] == Fields(null, null, null, 0)
    ensures Whole(m, n, Bin(Leaf, n, Leaf), [n])
  {
    var t := Bin(Leaf, n, Leaf);
    assert t.left.Leaf? && t.right.Leaf? && Nodes(t.left) == {} && Nodes(t) == {n};
    assert Height(t.left) == 0 && Linked(m, t.left) && Linked(m, t) && Distinct(t);
    assert Walk(Bin(Leaf, n, Leaf)) == [n];
  }
}
