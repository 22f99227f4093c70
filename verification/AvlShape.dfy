/** The nodes of an AVL tree and the pure vocabulary its proofs are stated in:
    trees and one-hole paths over node references, their heights, their in-order
    walks, and what it means for the fields of the nodes to spell out a tree. */
module AvlShape {

  /** Keys are opaque: the library reaches them only through the comparator. */
  type Key(!new)

  /** The source's `avl_node`, with the embedded `list_head` flattened into
      `next` and `prev`. The key of a node does not change. */
  class Node {
    var next: Node?
    var prev: Node?
    var parent: Node?
    var left: Node?
    var right: Node?
    const key: Key
    var balance: int
    var leader: bool

    constructor (k: Key)
      ensures key == k
    {
      key := k;
    }
  }

  /** The tree fields of a node, and a snapshot of them for a set of nodes. */
  datatype Fields = Fields(parent: Node?, left: Node?, right: Node?, balance: int)
  type Mem = map<Node, Fields>

  ghost function Snap(s: set<Node>): (m: Mem)
    reads s`parent, s`left, s`right, s`balance
    ensures m.Keys == s
  {
    map n | n in s :: Fields(n.parent, n.left, n.right, n.balance)
  }

  datatype Tree = Leaf | Bin(left: Tree, node: Node, right: Tree)

  /** A tree with a hole: the way from the hole up to the root. */
  datatype Path =
    | Top
    | GoLeft(up: Path, node: Node, right: Tree)
    | GoRight(up: Path, left: Tree, node: Node)

  function Max(a: int, b: int): int { if a > b then a else b }

  function Min(a: int, b: int): int { if a < b then a else b }

  ghost function Opt(n: Node?): set<Node> { if n == null then {} else {n} }

  // ----- trees

  ghost function Root(t: Tree): Node? { if t.Leaf? then null else t.node }

  ghost function Height(t: Tree): nat {
    if t.Leaf? then 0 else 1 + Max(Height(t.left), Height(t.right))
  }

  ghost function Nodes(t: Tree): (s: set<Node>)
    ensures t.Bin? ==> t.node in s
  {
    if t.Leaf? then {} else Nodes(t.left) + {t.node} + Nodes(t.right)
  }

  ghost function Walk(t: Tree): seq<Node> {
    if t.Leaf? then [] else Walk(t.left) + [t.node] + Walk(t.right)
  }

  /** No node occurs twice. */
  ghost predicate Distinct(t: Tree) {
    t.Bin? ==>
      && Distinct(t.left) && Distinct(t.right)
      && t.node !in Nodes(t.left) && t.node !in Nodes(t.right)
      && Nodes(t.left) !! Nodes(t.right)
  }

  ghost predicate Balanced(t: Tree) {
    t.Bin? ==>
      && -1 <= Height(t.right) - Height(t.left) <= 1
      && Balanced(t.left) && Balanced(t.right)
  }

  /** The fields of the nodes spell out `t`: child and parent pointers agree
      and every stored balance is the exact difference of heights. The parent
      of the root itself is left open. */
  ghost predicate Linked(m: Mem, t: Tree)
    requires Nodes(t) <= m.Keys
  {
    t.Bin? ==>
      && m[t.node].left == Root(t.left) && m[t.node].right == Root(t.right)
      && (t.left.Bin? ==> m[t.left.node].parent == t.node)
      && (t.right.Bin? ==> m[t.right.node].parent == t.node)
      && m[t.node].balance == Height(t.right) - Height(t.left)
      && Linked(m, t.left) && Linked(m, t.right)
  }

  // ----- paths

  ghost function Plug(p: Path, t: Tree): Tree {
    match p
    case Top => t
    case GoLeft(up, n, r) => Plug(up, Bin(t, n, r))
    case GoRight(up, l, n) => Plug(up, Bin(l, n, t))
  }

  /** The number of nodes above the place. */
  ghost function Depth(p: Path): nat { if p.Top? then 0 else 1 + Depth(p.up) }

  ghost function Above(p: Path): Node? { if p.Top? then null else p.node }

  /** The root of the whole tree, when `hole` is what hangs below the path. */
  ghost function Crown(p: Path, hole: Node?): Node? {
    if p.Top? then hole else Crown(p.up, p.node)
  }

  ghost function PathNodes(p: Path): set<Node> {
    match p
    case Top => {}
    case GoLeft(up, n, r) => PathNodes(up) + {n} + Nodes(r)
    case GoRight(up, l, n) => PathNodes(up) + {n} + Nodes(l)
  }

  ghost function Before(p: Path): seq<Node> {
    match p
    case Top => []
    case GoLeft(up, n, r) => Before(up)
    case GoRight(up, l, n) => Before(up) + Walk(l) + [n]
  }

  ghost function After(p: Path): seq<Node> {
    match p
    case Top => []
    case GoLeft(up, n, r) => [n] + Walk(r) + After(up)
    case GoRight(up, l, n) => After(up)
  }

  ghost function Sibling(p: Path): Tree
    requires !p.Top?
  {
    if p.GoLeft? then p.right else p.left
  }

  ghost predicate PathDistinct(p: Path) {
    !p.Top? ==>
      && PathDistinct(p.up) && Distinct(Sibling(p))
      && p.node !in PathNodes(p.up) && p.node !in Nodes(Sibling(p))
      && PathNodes(p.up) !! Nodes(Sibling(p))
  }

  ghost predicate PathBalanced(p: Path, h: int) {
    !p.Top? ==>
      && -1 <= Height(Sibling(p)) - h <= 1
      && Balanced(Sibling(p))
      && PathBalanced(p.up, 1 + Max(h, Height(Sibling(p))))
  }

  /** The pointers spell out the path, with `hole` hanging below it, and the
      trees beside it are in order. The balances on the path itself are not
      looked at. */
  ghost predicate PathLinked(m: Mem, p: Path, hole: Node?)
    requires PathNodes(p) <= m.Keys
  {
    !p.Top? ==>
      && (if p.GoLeft? then m[p.node].left == hole && m[p.node].right == Root(p.right)
          else m[p.node].right == hole && m[p.node].left == Root(p.left))
      && (Sibling(p).Bin? ==> m[Sibling(p).node].parent == p.node)
      && m[p.node].parent == Above(p.up)
      && Linked(m, Sibling(p))
      && PathLinked(m, p.up, p.node)
  }

  /** The balances on the path were stored for a hole of height `h`. */
  ghost predicate Stored(m: Mem, p: Path, h: int)
    requires PathNodes(p) <= m.Keys
  {
    !p.Top? ==>
      && m[p.node].balance == (if p.GoLeft? then Height(p.right) - h else h - Height(p.left))
      && Stored(m, p.up, 1 + Max(h, Height(Sibling(p))))
  }

  // ----- plugging a tree into a path

  lemma {:induction false} PlugDistinct(p: Path, t: Tree)
    ensures Nodes(Plug(p, t)) == PathNodes(p) + Nodes(t)
    ensures Distinct(Plug(p, t)) <==> PathDistinct(p) && Distinct(t) && PathNodes(p) !! Nodes(t)
  {
    match p
    case Top =>
    case GoLeft(up, n, r) => PlugDistinct(up, Bin(t, n, r));
    case GoRight(up, l, n) => PlugDistinct(up, Bin(l, n, t));
  }

  lemma AtTop(t: Tree)
    ensures Plug(Top, t) == t && PathBalanced(Top, Height(t))
  {
  }

  lemma {:induction false} PlugBalanced(p: Path, t: Tree)
    ensures Balanced(Plug(p, t)) <==> Balanced(t) && PathBalanced(p, Height(t))
  {
    hide Height, Balanced, PathBalanced, Plug;
    if p.Top? {
      AtTop(t);
    } else {
      UpIs(p, t, Height(t));
      PlugBalanced(p.up, Up(p, t));
    }
  }

  /** The subtree one level up, with `t` in its place. */
  ghost function Up(p: Path, t: Tree): Tree
    requires !p.Top?
  {
    if p.GoLeft? then Bin(t, p.node, p.right) else Bin(p.left, p.node, t)
  }

  lemma UpIs(p: Path, t: Tree, h: int)
    requires !p.Top?
    ensures Plug(p, t) == Plug(p.up, Up(p, t)) && Height(Up(p, t)) == 1 + Max(Height(t), Height(Sibling(p)))
    ensures Balanced(Up(p, t)) <==>
            -1 <= Height(Sibling(p)) - Height(t) <= 1 && Balanced(t) && Balanced(Sibling(p))
    ensures PathBalanced(p, h) <==>
            && -1 <= Height(Sibling(p)) - h <= 1 && Balanced(Sibling(p))
            && PathBalanced(p.up, 1 + Max(h, Height(Sibling(p))))
  {
  }

  lemma {:induction false} PlugRoot(p: Path, t: Tree)
    ensures Root(Plug(p, t)) == Crown(p, Root(t))
  {
    if !p.Top? {
      PlugRoot(p.up, if p.GoLeft? then Bin(t, p.node, p.right) else Bin(p.left, p.node, t));
    }
  }

  /** A walk with what lies before and after the hole of a path. */
  ghost function Within(p: Path, w: seq<Node>): seq<Node> { Before(p) + w + After(p) }

  /** The walk of two subtrees whose common root is gone. */
  ghost function Joint(p: Path, l: Tree, r: Tree): seq<Node> { Before(p) + Walk(l) + Walk(r) + After(p) }

  /** `n` is neither on the path nor in the tree. */
  ghost predicate Apart(n: Node, p: Path, t: Tree) { n !in PathNodes(p) && n !in Nodes(t) }

  lemma LeftAssoc(b: seq<Node>, t: seq<Node>, n: seq<Node>, r: seq<Node>, a: seq<Node>)
    ensures b + (t + n + r) + a == b + t + (n + r + a)
  {
  }

  lemma RightAssoc(b: seq<Node>, l: seq<Node>, n: seq<Node>, t: seq<Node>, a: seq<Node>)
    ensures b + (l + n + t) + a == b + l + n + t + a
  {
  }

  lemma {:induction false} PlugWalk(p: Path, t: Tree)
    ensures Walk(Plug(p, t)) == Before(p) + Walk(t) + After(p)
  {
    match p
    case Top =>
    case GoLeft(up, n, r) =>
      PlugWalk(up, Bin(t, n, r));
      LeftAssoc(Before(up), Walk(t), [n], Walk(r), After(up));
    case GoRight(up, l, n) =>
      PlugWalk(up, Bin(l, n, t));
      RightAssoc(Before(up), Walk(l), [n], Walk(t), After(up));
  }

  /** Every node of a tree has a path that leads to it. */
  lemma {:induction false} Zoom(p: Path, t: Tree, n: Node) returns (q: Path, l: Tree, r: Tree)
    requires n in Nodes(t)
    ensures Plug(p, t) == Plug(q, Bin(l, n, r))
    decreases t
  {
    if n == t.node {
      q, l, r := p, t.left, t.right;
    } else if n in Nodes(t.left) {
      q, l, r := Zoom(GoLeft(p, t.node, t.right), t.left, n);
    } else {
      q, l, r := Zoom(GoRight(p, t.left, t.node), t.right, n);
    }
  }

  // ----- changing the fields of a few nodes

  /** The snapshots agree on `s`. */
  ghost predicate Agree(m: Mem, m': Mem, s: set<Node>)
    requires s <= m.Keys && s <= m'.Keys
  {
    forall n :: n in s ==> m[n] == m'[n]
  }

  lemma {:induction false} KeepTree(m: Mem, m': Mem, t: Tree)
    requires Nodes(t) <= m.Keys && Nodes(t) <= m'.Keys
    requires Linked(m, t) && Agree(m, m', Nodes(t))
    ensures Linked(m', t)
  {
    if t.Bin? {
      KeepTree(m, m', t.left);
      KeepTree(m, m', t.right);
    }
  }

  /** The root of a subtree may get another parent. */
  lemma {:induction false} ReparentTree(m: Mem, m': Mem, t: Tree)
    requires Nodes(t) <= m.Keys && Nodes(t) <= m'.Keys && Distinct(t)
    requires Linked(m, t) && Agree(m, m', Nodes(t) - Opt(Root(t)))
    requires t.Bin? ==> m'[t.node] == m[t.node].(parent := m'[t.node].parent)
    ensures Linked(m', t)
  {
    if t.Bin? {
      KeepTree(m, m', t.left);
      KeepTree(m, m', t.right);
    }
  }

  lemma {:induction false} KeepPath(m: Mem, m': Mem, p: Path, hole: Node?)
    requires PathNodes(p) <= m.Keys && PathNodes(p) <= m'.Keys
    requires PathLinked(m, p, hole) && Agree(m, m', PathNodes(p))
    ensures PathLinked(m', p, hole)
  {
    if !p.Top? {
      KeepTree(m, m', Sibling(p));
      KeepPath(m, m', p.up, p.node);
    }
  }

  /** The lowest node of a path may get another child in the hole, and another
      balance. */
  lemma {:induction false} RehangPath(m: Mem, m': Mem, p: Path, hole: Node?, hole': Node?)
    requires PathNodes(p) <= m.Keys && PathNodes(p) <= m'.Keys && PathDistinct(p)
    requires PathLinked(m, p, hole) && Agree(m, m', PathNodes(p) - Opt(Above(p)))
    requires p.GoLeft? ==> m'[p.node] == m[p.node].(left := hole', balance := m'[p.node].balance)
    requires p.GoRight? ==> m'[p.node] == m[p.node].(right := hole', balance := m'[p.node].balance)
    ensures PathLinked(m', p, hole')
  {
    if !p.Top? {
      assert Nodes(Sibling(p)) <= PathNodes(p) - Opt(Above(p));
      assert PathNodes(p.up) <= PathNodes(p) - Opt(Above(p));
      KeepTree(m, m', Sibling(p));
      KeepPath(m, m', p.up, p.node);
    }
  }

  // ----- walks

  ghost predicate NoDup(s: seq<Node>) {
    forall i, j :: 0 <= i < j < |s| ==> s[i] != s[j]
  }

  ghost function Elems(s: seq<Node>): set<Node> { set n | n in s }

  lemma {:induction false} WalkNodes(t: Tree)
    ensures Elems(Walk(t)) == Nodes(t)
  {
    if t.Bin? {
      WalkNodes(t.left);
      WalkNodes(t.right);
    }
  }

  lemma {:induction false} WalkNoDup(t: Tree)
    requires Distinct(t)
    ensures NoDup(Walk(t))
  {
    if t.Bin? {
      WalkNoDup(t.left);
      WalkNoDup(t.right);
      WalkNodes(t.left);
      WalkNodes(t.right);
      var l, r := Walk(t.left), Walk(t.right);
      var s := l + [t.node] + r;
      forall i, j | 0 <= i < j < |s| ensures s[i] != s[j] {
        assert i < |l| ==> s[i] == l[i] && l[i] in Elems(l) && s[i] in Nodes(t.left);
        assert j > |l| ==> s[j] == r[j - |l| - 1] && r[j - |l| - 1] in Elems(r) && s[j] in Nodes(t.right);
        assert i > |l| ==> s[i] == r[i - |l| - 1];
        assert j < |l| ==> s[j] == l[j];
      }
    }
  }

  /** A node of a duplicate-free sequence has one position only. */
  lemma OnePosition(a: seq<Node>, b: seq<Node>, c: seq<Node>, d: seq<Node>, n: Node)
    requires a + [n] + b == c + [n] + d
    requires NoDup(a + [n] + b)
    ensures a == c && b == d
  {
    var s := a + [n] + b;
    assert s[|a|] == n;
    assert (c + [n] + d)[|c|] == n;
    assert a == s[..|a|] && c == s[..|c|];
    assert b == s[|a| + 1..] && d == s[|c| + 1..];
  }

  // ----- the height bound

  function Fib(n: nat): nat { if n < 2 then n else Fib(n - 1) + Fib(n - 2) }

  lemma {:induction false} FibMonotone(m: nat, n: nat)
    requires m <= n
    ensures Fib(m) <= Fib(n)
    decreases n - m
  {
    if m < n { FibMonotone(m + 1, n); }
  }

  /** A tree of height h has at least Fib(h + 2) - 1 nodes. */
  lemma {:induction false} HeightBound(t: Tree)
    requires Balanced(t)
    ensures |Walk(t)| + 1 >= Fib(Height(t) + 2)
  {
    hide Walk, Fib;
    if t.Bin? {
      HeightBound(t.left);
      HeightBound(t.right);
      var h := Height(t);
      BoundStep(t, h);
      FibMonotone(h, Height(t.left) + 2);
      FibMonotone(h, Height(t.right) + 2);
      assert Height(t.left) + 2 == h + 1 || Height(t.right) + 2 == h + 1;
    } else {
      BoundLeaf();
    }
  }

  lemma BoundStep(t: Tree, h: nat)
    requires t.Bin?
    ensures |Walk(t)| == |Walk(t.left)| + 1 + |Walk(t.right)| && Fib(h + 2) == Fib(h + 1) + Fib(h)
  {
  }

  lemma BoundLeaf()
    ensures Walk(Leaf) == [] && Fib(2) == 1
  {
  }
}
