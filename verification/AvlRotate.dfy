/** Rotations, told on snapshots of the fields. */
module AvlRotate {
  import opened AvlShape

  /** `t` is in place below the path `p`; `root` is the root of the whole tree.
      Every balance is exact, but for those on the path. */
  ghost predicate Hangs(m: Mem, root: Node?, p: Path, t: Tree) {
    && PathNodes(p) + Nodes(t) <= m.Keys
    && PathDistinct(p) && Distinct(t) && PathNodes(p) !! Nodes(t)
    && Linked(m, t) && PathLinked(m, p, Root(t))
    && (t.Bin? ==> m[t.node].parent == Above(p))
    && root == Crown(p, Root(t))
  }

  /** The nodes whose fields an operation may change. */
  ghost function Around(a: Node?, b: Node?, c: Node?, d: Node?): set<Node> { Opt(a) + Opt(b) + Opt(c) + Opt(d) }

  /** The nodes of a subtree below its root. */
  ghost function Below(t: Tree): set<Node> { Nodes(t) - Opt(Root(t)) }

  /** The fields of a node that gets another parent. */
  ghost function Adopted(f: Fields, parent: Node?): Fields { f.(parent := parent) }

  /** The balances on the path are as before. */
  ghost predicate SameSpine(m: Mem, m': Mem, p: Path) {
    !p.Top? ==> p.node in m && p.node in m' && m'[p.node].balance == m[p.node].balance && SameSpine(m, m', p.up)
  }

  lemma {:induction false} SpineTrans(m: Mem, m': Mem, m'': Mem, p: Path)
    requires SameSpine(m, m', p) && SameSpine(m', m'', p)
    ensures SameSpine(m, m'', p)
  {
    if !p.Top? { SpineTrans(m, m', m'', p.up); }
  }

  lemma {:induction false} KeepStored(m: Mem, m': Mem, p: Path, h: int)
    requires PathNodes(p) <= m.Keys && PathNodes(p) <= m'.Keys
    requires Stored(m, p, h) && SameSpine(m, m', p)
    ensures Stored(m', p, h)
  {
    if !p.Top? { KeepStored(m, m', p.up, 1 + Max(h, Height(Sibling(p)))); }
  }

  /** A subtree and the node above it make a subtree once the balance of that
      node is right. */
  lemma Climb(m: Mem, root: Node?, p: Path, t: Tree)
    requires !p.Top?
    ensures var u := if p.GoLeft? then Bin(t, p.node, p.right) else Bin(p.left, p.node, t);
            Hangs(m, root, p.up, u) <==>
            Hangs(m, root, p, t) &&
            m[p.node].balance == (if p.GoLeft? then Height(p.right) - Height(t) else Height(t) - Height(p.left))
  {
  }

  /** A subtree is in place with exact balances all the way up exactly when the
      whole tree is. */
  lemma {:induction false} Place(m: Mem, root: Node?, p: Path, t: Tree)
    ensures Hangs(m, root, p, t) && Stored(m, p, Height(t)) <==> Hangs(m, root, Top, Plug(p, t))
    ensures Balanced(t) && PathBalanced(p, Height(t)) <==> Balanced(Plug(p, t))
    ensures Nodes(Plug(p, t)) == PathNodes(p) + Nodes(t)
    ensures Walk(Plug(p, t)) == Before(p) + Walk(t) + After(p)
  {
    hide Hangs, Balanced, PathBalanced, Walk, Before, After, Nodes, PathNodes;
    PlugBalanced(p, t);
    PlugDistinct(p, t);
    PlugWalk(p, t);
    if !p.Top? {
      Climb(m, root, p, t);
      Place(m, root, p.up, if p.GoLeft? then Bin(t, p.node, p.right) else Bin(p.left, p.node, t));
    }
  }

  /** What can be read off the nodes around a subtree. */
  lemma Peek(m: Mem, root: Node?, p: Path, t: Tree)
    requires Hangs(m, root, p, t)
    ensures Opt(Above(p)) <= PathNodes(p) && Opt(Root(t)) <= m.Keys && PathNodes(p) <= m.Keys
    ensures !p.Top? ==> PathNodes(p.up) <= PathNodes(p)
    ensures t.Bin? ==> t.node !in PathNodes(p) && m[t.node].parent == Above(p)
    ensures t.Bin? ==> m[t.node].balance == Height(t.right) - Height(t.left)
    ensures t.Bin? ==> m[t.node].left == Root(t.left) && m[t.node].right == Root(t.right)
    ensures p.GoLeft? ==> m[p.node].left == Root(t) && m[p.node].right == Root(p.right)
    ensures p.GoRight? ==> m[p.node].right == Root(t) && m[p.node].left == Root(p.left)
    ensures p.GoRight? && t.Bin? ==> m[p.node].left != t.node
    ensures p.Top? ==> root == Root(t)
  {
    if p.GoRight? && p.left.Bin? { assert p.left.node in Nodes(p.left); }
  }

  /** ... and off the children of its root. */
  lemma PeekDown(m: Mem, root: Node?, p: Path, l: Tree, n: Node, r: Tree)
    requires Hangs(m, root, p, Bin(l, n, r))
    ensures {n} + Opt(Root(l)) + Opt(Root(r)) <= m.Keys && n !in PathNodes(p)
    ensures l.Bin? ==> m[l.node].parent == n && m[l.node].balance == Height(l.right) - Height(l.left)
    ensures r.Bin? ==> m[r.node].parent == n && m[r.node].balance == Height(r.right) - Height(r.left)
  {
    assert Nodes(l) + Nodes(r) <= Nodes(Bin(l, n, r));
    assert Linked(m, l) && Linked(m, r);
  }

  /** The hole of the path holds `hole'` now; nothing else on the path changed. */
  ghost predicate Rehung(m: Mem, m': Mem, root: Node?, root': Node?, p: Path, hole': Node?)
    requires PathNodes(p) <= m.Keys && PathNodes(p) <= m'.Keys
  {
    && Agree(m, m', PathNodes(p) - Opt(Above(p)))
    && (p.Top? ==> root' == hole')
    && (p.GoLeft? ==> root' == root && m'[p.node] == m[p.node].(left := hole'))
    && (p.GoRight? ==> root' == root && m'[p.node] == m[p.node].(right := hole'))
  }

  lemma {:induction false} AgreeSpine(m: Mem, m': Mem, p: Path)
    requires PathNodes(p) <= m.Keys && PathNodes(p) <= m'.Keys && Agree(m, m', PathNodes(p))
    ensures SameSpine(m, m', p)
  {
    if !p.Top? { AgreeSpine(m, m', p.up); }
  }

  /** The path takes the new hole. */
  lemma RehungPath(m: Mem, m': Mem, root: Node?, root': Node?, p: Path, hole: Node?, hole': Node?)
    requires PathNodes(p) <= m.Keys && PathNodes(p) <= m'.Keys
    requires PathDistinct(p) && PathLinked(m, p, hole) && root == Crown(p, hole)
    requires Rehung(m, m', root, root', p, hole')
    ensures PathLinked(m', p, hole') && root' == Crown(p, hole') && SameSpine(m, m', p)
  {
    RehangPath(m, m', p, hole, hole');
    if !p.Top? {
      assert PathNodes(p.up) <= PathNodes(p) - Opt(Above(p));
      AgreeSpine(m, m', p.up);
    }
  }

  /** Another tree takes the place of `t`. */
  lemma Swap(m: Mem, m': Mem, root: Node?, root': Node?, p: Path, t: Tree, t': Tree)
    requires Hangs(m, root, p, t) && PathNodes(p) + Nodes(t') <= m'.Keys
    requires Rehung(m, m', root, root', p, Root(t'))
    requires Distinct(t') && Nodes(t') !! PathNodes(p) && Linked(m', t')
    requires t'.Bin? ==> m'[t'.node].parent == Above(p)
    ensures Hangs(m', root', p, t') && SameSpine(m, m', p)
  {
    RehungPath(m, m', root, root', p, Root(t), Root(t'));
  }

  /** A node from outside takes the place of `n`, with all that `n` had. */
  lemma Substituted(m: Mem, m': Mem, root: Node?, root': Node?, p: Path, l: Tree, n: Node, r: Tree, heir: Node)
    requires Hangs(m, root, p, Bin(l, n, r)) && m'.Keys == m.Keys
    requires heir in m && Apart(heir, p, Bin(l, n, r))
    requires Agree(m, m', m.Keys - Around(heir, Above(p), Root(l), Root(r)))
    requires Rehung(m, m', root, root', p, heir)
    requires l.Bin? ==> m'[l.node] == Adopted(m[l.node], heir)
    requires r.Bin? ==> m'[r.node] == Adopted(m[r.node], heir)
    requires m'[heir] == m[n]
    ensures Hangs(m', root', p, Bin(l, heir, r)) && SameSpine(m, m', p)
  {
    ReparentTree(m, m', l);
    ReparentTree(m, m', r);
    assert m[n].parent == Above(p);
    Swap(m, m', root, root', p, Bin(l, n, r), Bin(l, heir, r));
  }

  /** The nodes at and around the root of a subtree are all different. */
  lemma Kin(m: Mem, root: Node?, p: Path, l: Tree, n: Node, r: Tree)
    requires Hangs(m, root, p, Bin(l, n, r))
    ensures {n} + Opt(Root(l)) + Opt(Root(r)) <= m.Keys && PathNodes(p) <= m.Keys && Opt(Above(p)) <= PathNodes(p)
    ensures Opt(Root(l)) !! Opt(Root(r)) && n !in Opt(Root(l)) + Opt(Root(r))
    ensures ({n} + Opt(Root(l)) + Opt(Root(r))) !! PathNodes(p)
  {
    assert Opt(Root(l)) <= Nodes(l) && Opt(Root(r)) <= Nodes(r);
  }

  /** Storing a new balance on the lowest node of a path. */
  lemma {:induction false} Rebalance(m: Mem, root: Node?, p: Path, t: Tree, b: int)
    requires !p.Top? && Hangs(m, root, p, t) && p.node in m
    requires b == if p.GoLeft? then Height(p.right) - Height(t) else Height(t) - Height(p.left)
    ensures var m' := m[p.node := m[p.node].(balance := b)];
            var u := if p.GoLeft? then Bin(t, p.node, p.right) else Bin(p.left, p.node, t);
            Hangs(m', root, p.up, u) && SameSpine(m, m', p.up)
  {
    var m' := m[p.node := m[p.node].(balance := b)];
    assert Agree(m, m', Nodes(t)) && Agree(m, m', PathNodes(p.up));
    KeepTree(m, m', t);
    RehangPath(m, m', p, Root(t), Root(t));
    AgreeSpine(m, m', p.up);
    assert m'.Keys == m.Keys;
    Climb(m', root, p, t);
  }

  // ----- rotation to the right

  /** What a rotation writes to the node that goes down, with the fields `fn`, and to
      its left child, with the fields `fl`. */
  ghost function LoweredRight(fn: Fields, fl: Fields, l: Node): Fields {
    Fields(l, fl.right, fn.right, fn.balance + 1 - Min(fl.balance, 0))
  }

  ghost function RaisedRight(fn: Fields, fl: Fields, n: Node): Fields {
    Fields(fn.parent, fl.left, n, fl.balance + 1 + Max(fn.balance + 1 - Min(fl.balance, 0), 0))
  }

  /** The nodes of a subtree are all there and linked. */
  ghost predicate Stands(m: Mem, t: Tree) { Nodes(t) <= m.Keys && Distinct(t) && Linked(m, t) }

  /** What a rotation may rely on, in terms of single nodes. */
  lemma BeforeRight(m: Mem, root: Node?, p: Path, a: Tree, l: Node, b: Tree, n: Node, c: Tree)
    requires Hangs(m, root, p, Bin(Bin(a, l, b), n, c))
    ensures {n, l} + Opt(Root(b)) <= m.Keys - PathNodes(p) && PathNodes(p) <= m.Keys && Opt(Above(p)) <= PathNodes(p)
    ensures n != l && n != Root(b) && l != Root(b)
    ensures m[n].parent == Above(p) && m[n].left == l && m[l].right == Root(b)
    ensures p.GoLeft? ==> m[p.node].left == n
    ensures p.GoRight? ==> m[p.node].left != n
  {
    var lower := Bin(a, l, b);
    Peek(m, root, p, Bin(lower, n, c));
    assert Linked(m, lower) && Distinct(lower);
    if b.Bin? { assert b.node in Nodes(b); }
  }

  /** A rotation keeps the nodes, and both forms have none twice or neither has. */
  lemma TurnDistinct(a: Tree, x: Node, b: Tree, y: Node, c: Tree)
    ensures Nodes(Bin(a, x, Bin(b, y, c))) == Nodes(Bin(Bin(a, x, b), y, c))
    ensures Distinct(Bin(a, x, Bin(b, y, c))) <==> Distinct(Bin(Bin(a, x, b), y, c))
    ensures Distinct(Bin(a, x, Bin(b, y, c))) ==> x != y && Distinct(b) && x !in Nodes(b) && y !in Nodes(b)
  {
    var low, high := Bin(b, y, c), Bin(a, x, b);
    assert Nodes(low) == Nodes(b) + {y} + Nodes(c) && Nodes(high) == Nodes(a) + {x} + Nodes(b);
    assert Distinct(low) <==> Distinct(b) && Distinct(c) && y !in Nodes(b) && y !in Nodes(c) && Nodes(b) !! Nodes(c);
    assert Distinct(high) <==> Distinct(a) && Distinct(b) && x !in Nodes(a) && x !in Nodes(b) && Nodes(a) !! Nodes(b);
  }

  lemma TurnRight(m: Mem, m': Mem, a: Tree, l: Node, b: Tree, n: Node, c: Tree)
    requires Stands(m, Bin(Bin(a, l, b), n, c)) && Nodes(Bin(Bin(a, l, b), n, c)) <= m'.Keys
    requires Agree(m, m', Nodes(a)) && Agree(m, m', Below(b)) && Agree(m, m', Nodes(c))
    requires b.Bin? ==> m'[b.node] == Adopted(m[b.node], n)
    requires m'[n] == LoweredRight(m[n], m[l], l) && m'[l] == RaisedRight(m[n], m[l], n)
    ensures Nodes(Bin(a, l, Bin(b, n, c))) == Nodes(Bin(Bin(a, l, b), n, c)) && Stands(m', Bin(a, l, Bin(b, n, c)))
  {
    hide Distinct;
    var lower, upper := Bin(a, l, b), Bin(b, n, c);
    TurnDistinct(a, l, b, n, c);
    assert Linked(m, lower);
    KeepTree(m, m', a);
    ReparentTree(m, m', b);
    KeepTree(m, m', c);
    assert Linked(m', upper);
  }

  lemma RotatedRight(m: Mem, m': Mem, root: Node?, root': Node?, p: Path,
                     a: Tree, l: Node, b: Tree, n: Node, c: Tree)
    requires Hangs(m, root, p, Bin(Bin(a, l, b), n, c)) && m'.Keys == m.Keys
    requires Agree(m, m', m.Keys - Around(n, l, Root(b), Above(p)))
    requires Rehung(m, m', root, root', p, l)
    requires b.Bin? ==> m'[b.node] == Adopted(m[b.node], n)
    requires m'[n] == LoweredRight(m[n], m[l], l) && m'[l] == RaisedRight(m[n], m[l], n)
    ensures Hangs(m', root', p, Bin(a, l, Bin(b, n, c))) && SameSpine(m, m', p)
  {
    var lower := Bin(a, l, b);
    var t := Bin(lower, n, c);
    assert Nodes(t) == Nodes(a) + {l} + Nodes(b) + {n} + Nodes(c);
    assert Distinct(lower);
    TurnRight(m, m', a, l, b, n, c);
    RehungPath(m, m', root, root', p, n, l);
  }

  // ----- rotation to the left

  ghost function LoweredLeft(fn: Fields, fr: Fields, r: Node): Fields {
    Fields(r, fn.left, fr.left, fn.balance - (1 + Max(fr.balance, 0)))
  }

  ghost function RaisedLeft(fn: Fields, fr: Fields, n: Node): Fields {
    Fields(fn.parent, n, fr.right, fr.balance - (1 - Min(fn.balance - (1 + Max(fr.balance, 0)), 0)))
  }

  lemma BeforeLeft(m: Mem, root: Node?, p: Path, a: Tree, n: Node, b: Tree, r: Node, c: Tree)
    requires Hangs(m, root, p, Bin(a, n, Bin(b, r, c)))
    ensures {n, r} + Opt(Root(b)) <= m.Keys - PathNodes(p) && PathNodes(p) <= m.Keys && Opt(Above(p)) <= PathNodes(p)
    ensures n != r && n != Root(b) && r != Root(b)
    ensures m[n].parent == Above(p) && m[n].right == r && m[r].left == Root(b)
    ensures p.GoLeft? ==> m[p.node].left == n
    ensures p.GoRight? ==> m[p.node].left != n
  {
    var lower := Bin(b, r, c);
    Peek(m, root, p, Bin(a, n, lower));
    assert Linked(m, lower) && Distinct(lower);
    if b.Bin? { assert b.node in Nodes(b); }
  }

  lemma TurnLeft(m: Mem, m': Mem, a: Tree, n: Node, b: Tree, r: Node, c: Tree)
    requires Stands(m, Bin(a, n, Bin(b, r, c))) && Nodes(Bin(a, n, Bin(b, r, c))) <= m'.Keys
    requires Agree(m, m', Nodes(a)) && Agree(m, m', Below(b)) && Agree(m, m', Nodes(c))
    requires b.Bin? ==> m'[b.node] == Adopted(m[b.node], n)
    requires m'[n] == LoweredLeft(m[n], m[r], r) && m'[r] == RaisedLeft(m[n], m[r], n)
    ensures Nodes(Bin(Bin(a, n, b), r, c)) == Nodes(Bin(a, n, Bin(b, r, c))) && Stands(m', Bin(Bin(a, n, b), r, c))
  {
    hide Distinct;
    var lower, upper := Bin(b, r, c), Bin(a, n, b);
    TurnDistinct(a, n, b, r, c);
    assert Linked(m, lower);
    KeepTree(m, m', a);
    ReparentTree(m, m', b);
    KeepTree(m, m', c);
    assert Linked(m', upper);
  }

  lemma RotatedLeft(m: Mem, m': Mem, root: Node?, root': Node?, p: Path,
                    a: Tree, n: Node, b: Tree, r: Node, c: Tree)
    requires Hangs(m, root, p, Bin(a, n, Bin(b, r, c))) && m'.Keys == m.Keys
    requires Agree(m, m', m.Keys - Around(n, r, Root(b), Above(p)))
    requires Rehung(m, m', root, root', p, r)
    requires b.Bin? ==> m'[b.node] == Adopted(m[b.node], n)
    requires m'[n] == LoweredLeft(m[n], m[r], r) && m'[r] == RaisedLeft(m[n], m[r], n)
    ensures Hangs(m', root', p, Bin(Bin(a, n, b), r, c)) && SameSpine(m, m', p)
  {
    var lower := Bin(b, r, c);
    var t := Bin(a, n, lower);
    assert Nodes(t) == Nodes(a) + {n} + Nodes(b) + {r} + Nodes(c);
    assert Distinct(lower);
    TurnLeft(m, m', a, n, b, r, c);
    RehungPath(m, m', root, root', p, n, r);
  }
}
