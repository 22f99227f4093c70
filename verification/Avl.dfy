/** avl.c: the tree itself, working in place on the nodes. */
module Avl {
  import opened AvlShape
  import opened AvlRotate
  import opened AvlBalance
  import opened AvlOrder
  import opened List

  class AvlTree {
    var root: Node?
    var count: int
    const allowDups: bool
    const comp: Comp
    /** Stands for the `list_head` of the tree; it is not an element. */
    const head: Node
    ghost var shape: Tree
    ghost var list: seq<Node>

    /** The list is a sorted ring, and the first node of every run of equal keys,
        and no other, is marked as leader. */
    ghost predicate ListOk()
      reads `count, `list, head`next, head`prev, Elems(list)`next, Elems(list)`prev, Elems(list)`leader
    {
      && Ring(head, list) && count == |list|
      && Order(comp) && Sorted(comp, list) && Marked(comp, list)
      && (!allowDups ==> Single(comp, list))
    }

    /** The leaders make a balanced search tree. */
    ghost predicate TreeOk()
      reads `root, `shape, `list, Elems(list)`left, Elems(list)`right, Elems(list)`parent, Elems(list)`balance
    {
      && Strict(comp, Walk(shape)) && Nodes(shape) == Leads(comp, list)
      && Sound(Snap(Elems(list)), root, Top, shape)
    }

    ghost predicate Valid()
      reads this, head, Elems(list)
    {
      ListOk() && TreeOk()
    }

    /** `avl_init`: the list head comes with the memory of the tree. */
    constructor (head: Node, comp: Comp, allowDups: bool)
      requires Order(comp)
      modifies head`next, head`prev
      ensures Valid() && list == []
      ensures this.head == head && this.comp == comp && this.allowDups == allowDups
    {
      this.head, this.comp, this.allowDups := head, comp, allowDups;
      this.root, this.count := null, 0;
      this.shape, this.list := Leaf, [];
      new;
      InitListHead(head);
    }

    /** The assignments of a rotation to the right, field by field. */
    method SwingRight(node: Node, left: Node, mid: Node?, parent: Node?)
      requires node.left == left && left.right == mid && node.parent == parent
      requires node != left && node != mid && left != mid && parent != node && parent != left
      requires mid != null ==> mid != parent
      modifies `root, {node, left}`left, {node, left}`right, {node, left}`parent, {node, left}`balance,
               Opt(mid)`parent, Opt(parent)`left, Opt(parent)`right
      ensures left.parent == parent && left.left == old(left.left) && left.right == node
      ensures node.parent == left && node.left == mid && node.right == old(node.right)
      ensures node.balance == old(node.balance) + 1 - Min(old(left.balance), 0)
      ensures left.balance == old(left.balance) + 1 + Max(node.balance, 0)
      ensures mid != null ==> mid.parent == node
      ensures parent == null ==> root == left
      ensures parent != null ==> root == old(root)
      ensures parent != null && old(parent.left) == node ==> parent.left == left && parent.right == old(parent.right)
      ensures parent != null && old(parent.left) != node ==> parent.right == left && parent.left == old(parent.left)
    {
      left.parent := parent;
      node.parent := left;
      if parent == null {
        root := left;
      } else if parent.left == node {
        parent.left := left;
      } else {
        parent.right := left;
      }
      node.left := left.right;
      left.right := node;
      if node.left != null {
        node.left.parent := node;
      }
      node.balance := node.balance + 1 - Min(left.balance, 0);
      left.balance := left.balance + 1 + Max(node.balance, 0);
    }

    method RotateRight(node: Node, ghost s: set<Node>, ghost p: Path, ghost a: Tree, ghost b: Tree, ghost c: Tree)
      requires node in s && node.left != null
      requires Hangs(Snap(s), root, p, Bin(Bin(a, node.left, b), node, c))
      modifies `root, s`left, s`right, s`parent, s`balance
      ensures Hangs(Snap(s), root, p, Bin(a, old(node.left), Bin(b, node, c)))
      ensures SameSpine(old(Snap(s)), Snap(s), p)
    {
      hide Hangs, SameSpine, PathNodes, Nodes;
      ghost var m := Snap(s);
      BeforeRight(m, root, p, a, node.left, b, node, c);
      var left := node.left;
      SwingRight(node, left, left.right, node.parent);
      RotatedRight(m, Snap(s), old(root), root, p, a, left, b, node, c);
    }

    /** The assignments of a rotation to the left, field by field. */
    method SwingLeft(node: Node, right: Node, mid: Node?, parent: Node?)
      requires node.right == right && right.left == mid && node.parent == parent
      requires node != right && node != mid && right != mid && parent != node && parent != right
      requires mid != null ==> mid != parent
      modifies `root, {node, right}`left, {node, right}`right, {node, right}`parent, {node, right}`balance,
               Opt(mid)`parent, Opt(parent)`left, Opt(parent)`right
      ensures right.parent == parent && right.right == old(right.right) && right.left == node
      ensures node.parent == right && node.right == mid && node.left == old(node.left)
      ensures node.balance == old(node.balance) - (1 + Max(old(right.balance), 0))
      ensures right.balance == old(right.balance) - (1 - Min(node.balance, 0))
      ensures mid != null ==> mid.parent == node
      ensures parent == null ==> root == right
      ensures parent != null ==> root == old(root)
      ensures parent != null && old(parent.left) == node ==> parent.left == right && parent.right == old(parent.right)
      ensures parent != null && old(parent.left) != node ==> parent.right == right && parent.left == old(parent.left)
    {
      right.parent := parent;
      node.parent := right;
      if parent == null {
        root := right;
      } else if parent.left == node {
        parent.left := right;
      } else {
        parent.right := right;
      }
      node.right := right.left;
      right.left := node;
      if node.right != null {
        node.right.parent := node;
      }
      node.balance := node.balance - (1 + Max(right.balance, 0));
      right.balance := right.balance - (1 - Min(node.balance, 0));
    }

    method RotateLeft(node: Node, ghost s: set<Node>, ghost p: Path, ghost a: Tree, ghost b: Tree, ghost c: Tree)
      requires node in s && node.right != null
      requires Hangs(Snap(s), root, p, Bin(a, node, Bin(b, node.right, c)))
      modifies `root, s`left, s`right, s`parent, s`balance
      ensures Hangs(Snap(s), root, p, Bin(Bin(a, node, b), old(node.right), c))
      ensures SameSpine(old(Snap(s)), Snap(s), p)
    {
      hide Hangs, SameSpine, PathNodes, Nodes;
      ghost var m := Snap(s);
      BeforeLeft(m, root, p, a, node, b, node.right, c);
      var right := node.right;
      SwingLeft(node, right, right.left, node.parent);
      RotatedLeft(m, Snap(s), old(root), root, p, a, node, b, right, c);
    }

    /** The balance of the node above the subtree `t` is set right: the subtree
        and that node make a subtree. */
    method Adjust(parent: Node, delta: int, ghost s: set<Node>, ghost p: Path, ghost t: Tree)
      requires !p.Top? && p.node == parent && parent in s && Hangs(Snap(s), root, p, t)
      requires parent.balance + delta ==
               (if p.GoLeft? then Height(p.right) - Height(t) else Height(t) - Height(p.left))
      modifies parent`balance
      ensures parent.balance == old(parent.balance) + delta
      ensures Hangs(Snap(s), root, p.up, if p.GoLeft? then Bin(t, parent, p.right) else Bin(p.left, parent, t))
      ensures SameSpine(old(Snap(s)), Snap(s), p.up)
    {
      hide Hangs, SameSpine, PathNodes, Nodes;
      ghost var m := Snap(s);
      parent.balance := parent.balance + delta;
      assert Snap(s) == m[parent := m[parent].(balance := parent.balance)];
      Rebalance(m, root, p, t, parent.balance);
    }

    /** Left at the child `l`, then right at the node `n` above it. */
    method DoubleRotateRight(l: Node, n: Node, ghost s: set<Node>, ghost p: Path,
                             ghost a: Tree, ghost b: Tree, ghost x: Node, ghost c: Tree, ghost d: Tree)
      requires n in s && l in s && Hangs(Snap(s), root, p, Bin(Bin(a, l, Bin(b, x, c)), n, d))
      requires Height(Bin(Bin(a, l, b), x, c)) == Height(Bin(a, l, Bin(b, x, c)))
      modifies `root, s`left, s`right, s`parent, s`balance
      ensures Hangs(Snap(s), root, p, Bin(Bin(a, l, b), x, Bin(c, n, d)))
      ensures SameSpine(old(Snap(s)), Snap(s), p)
    {
      hide Hangs, Height, PathNodes, Nodes;
      ghost var m := Snap(s);
      ghost var q := GoLeft(p, n, d);
      Climb(m, root, q, Bin(a, l, Bin(b, x, c)));
      BeforeLeft(m, root, q, a, l, b, x, c);
      RotateLeft(l, s, q, a, b, c);
      ghost var m1 := Snap(s);
      Climb(m1, root, q, Bin(Bin(a, l, b), x, c));
      BeforeRight(m1, root, p, Bin(a, l, b), x, c, n, d);
      RotateRight(n, s, p, Bin(a, l, b), c, d);
      SpineTrans(m, m1, Snap(s), p);
    }

    /** Right at the child `r`, then left at the node `n` above it. */
    method DoubleRotateLeft(r: Node, n: Node, ghost s: set<Node>, ghost p: Path,
                            ghost a: Tree, ghost b: Tree, ghost x: Node, ghost c: Tree, ghost d: Tree)
      requires n in s && r in s && Hangs(Snap(s), root, p, Bin(a, n, Bin(Bin(b, x, c), r, d)))
      requires Height(Bin(b, x, Bin(c, r, d))) == Height(Bin(Bin(b, x, c), r, d))
      modifies `root, s`left, s`right, s`parent, s`balance
      ensures Hangs(Snap(s), root, p, Bin(Bin(a, n, b), x, Bin(c, r, d)))
      ensures SameSpine(old(Snap(s)), Snap(s), p)
    {
      hide Hangs, Height, PathNodes, Nodes;
      ghost var m := Snap(s);
      ghost var q := GoRight(p, a, n);
      Climb(m, root, q, Bin(Bin(b, x, c), r, d));
      BeforeRight(m, root, q, b, x, c, r, d);
      RotateRight(r, s, q, b, c, d);
      ghost var m1 := Snap(s);
      Climb(m1, root, q, Bin(b, x, Bin(c, r, d)));
      BeforeLeft(m1, root, p, a, n, b, x, Bin(c, r, d));
      RotateLeft(n, s, p, a, b, Bin(c, r, d));
      SpineTrans(m, m1, Snap(s), p);
    }

    /** The subtree `t` at `node` has grown by one level; the balances above it
        were stored for the height it had. */
    method PostInsert(node: Node, ghost s: set<Node>, ghost p: Path, ghost t: Tree) returns (ghost u: Tree)
      requires t.Bin? && t.node == node && node in s && PathNodes(p) <= s && node.balance != 0
      requires Hangs(Snap(s), root, p, t) && Stored(Snap(s), p, Height(t) - 1)
      requires Balanced(t) && PathBalanced(p, Height(t) - 1)
      modifies `root, s`left, s`right, s`parent, s`balance
      ensures Done(Snap(s), root, u, p, t)
      decreases p, 1
    {
      hide Hangs, Walk, Nodes, PathNodes, SameSpine, Stored, PathBalanced;
      Peek(Snap(s), root, p, t);
      var parent := node.parent;
      if parent == null {
        u := t;
      } else if node == parent.left {
        u := GrownLeft(node, parent, s, p, t);
      } else {
        u := GrownRight(node, parent, s, p, t);
      }
    }

    method GrownLeft(node: Node, parent: Node, ghost s: set<Node>, ghost p: Path, ghost t: Tree) returns (ghost u: Tree)
      requires t.Bin? && t.node == node && node in s && PathNodes(p) <= s && node.balance != 0
      requires Hangs(Snap(s), root, p, t) && Stored(Snap(s), p, Height(t) - 1)
      requires Balanced(t) && PathBalanced(p, Height(t) - 1)
      requires p.GoLeft? && p.node == parent
      modifies `root, s`left, s`right, s`parent, s`balance
      ensures Done(Snap(s), root, u, p, t)
      decreases p, 0
    {
      hide Hangs, Walk, Nodes, PathNodes, SameSpine, PathBalanced, Balanced, Height, Plug;
      ghost var m := Snap(s);
      ghost var r, t1, h := p.right, Bin(t, parent, p.right), 1 + Max(Height(t) - 1, Height(p.right));
      Peek(m, root, p, t);
      OneUp(p, t, Height(t) - 1, t1, h);
      Adjust(parent, -1, s, p, t);
      ghost var m1 := Snap(s);
      KeepStored(m, m1, p.up, h);
      if parent.balance == 0 {
        Settle(m1, root, p.up, t1, t1);
        u := Plug(p.up, t1);
      } else if parent.balance == -1 {
        u := PostInsert(parent, s, p.up, t1);
      } else if node.balance == -1 {
        SingleRight(t.left, node, t.right, parent, r);
        RotateRight(parent, s, p.up, t.left, t.right, r);
        KeepStored(m1, Snap(s), p.up, h);
        u := Bin(t.left, node, Bin(t.right, parent, r));
        Settle(Snap(s), root, p.up, t1, u);
        u := Plug(p.up, u);
      } else {
        ghost var q := t.right;
        Tall(q);
        DoubleRight(t.left, node, q.left, q.node, q.right, parent, r);
        DoubleRotateRight(node, parent, s, p.up, t.left, q.left, q.node, q.right, r);
        KeepStored(m1, Snap(s), p.up, h);
        u := Bin(Bin(t.left, node, q.left), q.node, Bin(q.right, parent, r));
        Settle(Snap(s), root, p.up, t1, u);
        u := Plug(p.up, u);
      }
    }

    method GrownRight(node: Node, parent: Node, ghost s: set<Node>, ghost p: Path, ghost t: Tree)
      returns (ghost u: Tree)
      requires t.Bin? && t.node == node && node in s && PathNodes(p) <= s && node.balance != 0
      requires Hangs(Snap(s), root, p, t) && Stored(Snap(s), p, Height(t) - 1)
      requires Balanced(t) && PathBalanced(p, Height(t) - 1)
      requires p.GoRight? && p.node == parent
      modifies `root, s`left, s`right, s`parent, s`balance
      ensures Done(Snap(s), root, u, p, t)
      decreases p, 0
    {
      hide Hangs, Walk, Nodes, PathNodes, SameSpine, PathBalanced, Balanced, Height, Plug;
      ghost var m := Snap(s);
      ghost var l, t1, h := p.left, Bin(p.left, parent, t), 1 + Max(Height(t) - 1, Height(p.left));
      Peek(m, root, p, t);
      OneUp(p, t, Height(t) - 1, t1, h);
      Adjust(parent, 1, s, p, t);
      ghost var m1 := Snap(s);
      KeepStored(m, m1, p.up, h);
      if parent.balance == 0 {
        Settle(m1, root, p.up, t1, t1);
        u := Plug(p.up, t1);
      } else if parent.balance == 1 {
        u := PostInsert(parent, s, p.up, t1);
      } else if node.balance == 1 {
        SingleLeft(l, parent, t.left, node, t.right);
        RotateLeft(parent, s, p.up, l, t.left, t.right);
        KeepStored(m1, Snap(s), p.up, h);
        u := Bin(Bin(l, parent, t.left), node, t.right);
        Settle(Snap(s), root, p.up, t1, u);
        u := Plug(p.up, u);
      } else {
        ghost var q := t.left;
        Tall(q);
        DoubleLeft(l, parent, q.left, q.node, q.right, node, t.right);
        DoubleRotateLeft(node, parent, s, p.up, l, q.left, q.node, q.right, t.right);
        KeepStored(m1, Snap(s), p.up, h);
        u := Bin(Bin(l, parent, q.left), q.node, Bin(q.right, node, t.right));
        Settle(Snap(s), root, p.up, t1, u);
        u := Plug(p.up, u);
      }
    }

    /** The subtree `t` at `node` has lost one level; the balances above it were
        stored for the height it had. */
    method PostDelete(node: Node, ghost s: set<Node>, ghost p: Path, ghost t: Tree) returns (ghost u: Tree)
      requires t.Bin? && t.node == node && node in s && PathNodes(p) <= s
      requires Hangs(Snap(s), root, p, t) && Stored(Snap(s), p, Height(t) + 1)
      requires Balanced(t) && PathBalanced(p, Height(t) + 1)
      modifies `root, s`left, s`right, s`parent, s`balance
      ensures Done(Snap(s), root, u, p, t)
      decreases p, 1
    {
      hide Hangs, Walk, Nodes, PathNodes, SameSpine, Stored, PathBalanced;
      Peek(Snap(s), root, p, t);
      var parent := node.parent;
      if parent == null {
        u := t;
      } else if node == parent.left {
        u := ShrunkLeft(parent, s, p, t);
      } else {
        u := ShrunkRight(parent, s, p, t);
      }
    }

    /** The left subtree of `parent` has lost one level (and may be gone). */
    method ShrunkLeft(parent: Node, ghost s: set<Node>, ghost p: Path, ghost t: Tree) returns (ghost u: Tree)
      requires p.GoLeft? && p.node == parent && parent in s && PathNodes(p) <= s
      requires Hangs(Snap(s), root, p, t) && Stored(Snap(s), p, Height(t) + 1)
      requires Balanced(t) && PathBalanced(p, Height(t) + 1)
      modifies `root, s`left, s`right, s`parent, s`balance
      ensures Done(Snap(s), root, u, p, t)
      decreases p, 0
    {
      hide Hangs, Walk, Nodes, PathNodes, SameSpine, PathBalanced, Balanced, Height, Plug;
      ghost var m := Snap(s);
      ghost var r, t1, h := p.right, Bin(t, parent, p.right), 1 + Max(Height(t) + 1, Height(p.right));
      Peek(m, root, p, t);
      OneUp(p, t, Height(t) + 1, t1, h);
      Adjust(parent, 1, s, p, t);
      ghost var m1 := Snap(s);
      KeepStored(m, m1, p.up, h);
      Tall(r);
      if parent.balance == 0 {
        u := PostDelete(parent, s, p.up, t1);
      } else if parent.balance == 1 {
        Settle(m1, root, p.up, t1, t1);
        u := Plug(p.up, t1);
      } else {
        u := RightHeavy(parent, s, p.up, t, r);
      }
    }

    /** The right subtree of `parent` is two levels higher than the left one, and
        the balances above were stored for the height with one level more on
        the left. */
    method RightHeavy(parent: Node, ghost s: set<Node>, ghost p: Path, ghost l: Tree, ghost r: Tree)
      returns (ghost u: Tree)
      requires parent in s && PathNodes(p) <= s && Hangs(Snap(s), root, p, Bin(l, parent, r))
      requires Height(r) == Height(l) + 2 && Balanced(l) && Balanced(r)
      requires Stored(Snap(s), p, Height(r) + 1) && PathBalanced(p, Height(r) + 1)
      modifies `root, s`left, s`right, s`parent, s`balance
      ensures Done(Snap(s), root, u, p, Bin(l, parent, r))
      decreases p, 2
    {
      hide Hangs, Walk, Nodes, PathNodes, SameSpine, Stored, PathBalanced, Balanced, Height, Plug;
      ghost var m, t, h := Snap(s), Bin(l, parent, r), Height(r) + 1;
      Lean(r);
      Peek(m, root, p, t);
      PeekDown(m, root, p, l, parent, r);
      var right := parent.right;
      if right.balance == 0 {
        SingleLeft(l, parent, r.left, right, r.right);
        RotateLeft(parent, s, p, l, r.left, r.right);
        KeepStored(m, Snap(s), p, h);
        u := Bin(Bin(l, parent, r.left), right, r.right);
        Settle(Snap(s), root, p, t, u);
        u := Plug(p, u);
      } else if right.balance == 1 {
        SingleLeft(l, parent, r.left, right, r.right);
        RotateLeft(parent, s, p, l, r.left, r.right);
        KeepStored(m, Snap(s), p, h);
        u := Bin(Bin(l, parent, r.left), right, r.right);
        PlugSame(p, t, u);
        PeekDown(Snap(s), root, p, u.left, u.node, u.right);
        u := PostDelete(parent.parent, s, p, u);
      } else {
        ghost var q := r.left;
        Tall(q);
        DoubleLeft(l, parent, q.left, q.node, q.right, right, r.right);
        DoubleRotateLeft(right, parent, s, p, l, q.left, q.node, q.right, r.right);
        KeepStored(m, Snap(s), p, h);
        u := Bin(Bin(l, parent, q.left), q.node, Bin(q.right, right, r.right));
        PlugSame(p, t, u);
        PeekDown(Snap(s), root, p, u.left, u.node, u.right);
        u := PostDelete(parent.parent, s, p, u);
      }
    }

    /** The right subtree of `parent` has lost one level (and may be gone). */
    method ShrunkRight(parent: Node, ghost s: set<Node>, ghost p: Path, ghost t: Tree) returns (ghost u: Tree)
      requires p.GoRight? && p.node == parent && parent in s && PathNodes(p) <= s
      requires Hangs(Snap(s), root, p, t) && Stored(Snap(s), p, Height(t) + 1)
      requires Balanced(t) && PathBalanced(p, Height(t) + 1)
      modifies `root, s`left, s`right, s`parent, s`balance
      ensures Done(Snap(s), root, u, p, t)
      decreases p, 0
    {
      hide Hangs, Walk, Nodes, PathNodes, SameSpine, PathBalanced, Balanced, Height, Plug;
      ghost var m := Snap(s);
      ghost var l, t1, h := p.left, Bin(p.left, parent, t), 1 + Max(Height(t) + 1, Height(p.left));
      Peek(m, root, p, t);
      OneUp(p, t, Height(t) + 1, t1, h);
      Adjust(parent, -1, s, p, t);
      ghost var m1 := Snap(s);
      KeepStored(m, m1, p.up, h);
      Tall(l);
      if parent.balance == 0 {
        u := PostDelete(parent, s, p.up, t1);
      } else if parent.balance == -1 {
        Settle(m1, root, p.up, t1, t1);
        u := Plug(p.up, t1);
      } else {
        u := LeftHeavy(parent, s, p.up, l, t);
      }
    }

    /** The mirror image of RightHeavy. */
    method LeftHeavy(parent: Node, ghost s: set<Node>, ghost p: Path, ghost l: Tree, ghost r: Tree)
      returns (ghost u: Tree)
      requires parent in s && PathNodes(p) <= s && Hangs(Snap(s), root, p, Bin(l, parent, r))
      requires Height(l) == Height(r) + 2 && Balanced(l) && Balanced(r)
      requires Stored(Snap(s), p, Height(l) + 1) && PathBalanced(p, Height(l) + 1)
      modifies `root, s`left, s`right, s`parent, s`balance
      ensures Done(Snap(s), root, u, p, Bin(l, parent, r))
      decreases p, 2
    {
      hide Hangs, Walk, Nodes, PathNodes, SameSpine, Stored, PathBalanced, Balanced, Height, Plug;
      ghost var m, t, h := Snap(s), Bin(l, parent, r), Height(l) + 1;
      Lean(l);
      Peek(m, root, p, t);
      PeekDown(m, root, p, l, parent, r);
      var left := parent.left;
      if left.balance == 0 {
        SingleRight(l.left, left, l.right, parent, r);
        RotateRight(parent, s, p, l.left, l.right, r);
        KeepStored(m, Snap(s), p, h);
        u := Bin(l.left, left, Bin(l.right, parent, r));
        Settle(Snap(s), root, p, t, u);
        u := Plug(p, u);
      } else if left.balance == -1 {
        SingleRight(l.left, left, l.right, parent, r);
        RotateRight(parent, s, p, l.left, l.right, r);
        KeepStored(m, Snap(s), p, h);
        u := Bin(l.left, left, Bin(l.right, parent, r));
        PlugSame(p, t, u);
        PeekDown(Snap(s), root, p, u.left, u.node, u.right);
        u := PostDelete(parent.parent, s, p, u);
      } else {
        ghost var q := l.right;
        Tall(q);
        DoubleRight(l.left, left, q.left, q.node, q.right, parent, r);
        DoubleRotateRight(left, parent, s, p, l.left, q.left, q.node, q.right, r);
        KeepStored(m, Snap(s), p, h);
        u := Bin(Bin(l.left, left, q.left), q.node, Bin(q.right, parent, r));
        PlugSame(p, t, u);
        PeekDown(Snap(s), root, p, u.left, u.node, u.right);
        u := PostDelete(parent.parent, s, p, u);
      }
    }

    /** The leftmost node of the subtree `t` at `start`. */
    method LocalMin(start: Node, ghost s: set<Node>, ghost p: Path, ghost t: Tree)
      returns (min: Node, ghost q: Path, ghost r: Tree)
      requires t.Bin? && t.node == start && start in s && Hangs(Snap(s), root, p, t)
      ensures min in s && Hangs(Snap(s), root, q, Bin(Leaf, min, r))
      ensures Plug(q, Bin(Leaf, min, r)) == Plug(p, t) && Before(q) == Before(p)
    {
      hide Hangs, Height, PathNodes, Nodes;
      var node := start;
      q := p;
      ghost var cur := t;
      Peek(Snap(s), root, q, cur);
      while node.left != null
        invariant node in s && cur.Bin? && cur.node == node && Hangs(Snap(s), root, q, cur)
        invariant node.left == Root(cur.left)
        invariant Plug(q, cur) == Plug(p, t) && Before(q) == Before(p)
        decreases cur
      {
        Climb(Snap(s), root, GoLeft(q, node, cur.right), cur.left);
        Peek(Snap(s), root, q, cur);
        q, cur := GoLeft(q, node, cur.right), cur.left;
        node := node.left;
        Peek(Snap(s), root, q, cur);
      }
      min, r := node, cur.right;
    }

    /** The assignments by which `heir` takes over the links of `node`. */
    method CopyLinks(node: Node, heir: Node, left: Node?, right: Node?, parent: Node?)
      requires node.left == left && node.right == right && node.parent == parent
      requires heir != node && heir != left && heir != right && heir != parent
      requires left != null ==> left != right && left != parent && left != node
      requires right != null ==> right != parent && right != node
      requires parent != node
      modifies `root, heir`balance, heir`left, heir`right, heir`parent,
               Opt(left)`parent, Opt(right)`parent, Opt(parent)`left, Opt(parent)`right
      ensures heir.balance == node.balance && heir.left == left && heir.right == right && heir.parent == parent
      ensures left != null ==> left.parent == heir
      ensures right != null ==> right.parent == heir
      ensures parent == null ==> root == heir
      ensures parent != null ==> root == old(root)
      ensures parent != null && old(parent.left) == node ==> parent.left == heir && parent.right == old(parent.right)
      ensures parent != null && old(parent.left) != node ==> parent.right == heir && parent.left == old(parent.left)
    {
      heir.balance := node.balance;
      heir.parent := parent;
      heir.left := left;
      heir.right := right;
      if left != null {
        left.parent := heir;
      }
      if right != null {
        right.parent := heir;
      }
      if parent == null {
        root := heir;
      } else if parent.left == node {
        parent.left := heir;
      } else {
        parent.right := heir;
      }
    }

    /** `heir`, a node outside the tree, takes over the place of `node`. */
    method TakePlace(node: Node, heir: Node, ghost s: set<Node>, ghost p: Path, ghost l: Tree, ghost r: Tree)
      requires node in s && heir in s && Sound(Snap(s), root, p, Bin(l, node, r))
      requires heir !in PathNodes(p) && heir !in Nodes(Bin(l, node, r))
      modifies `root, s`left, s`right, s`parent, s`balance
      ensures Sound(Snap(s), root, p, Bin(l, heir, r))
    {
      hide Hangs, SameSpine, PathNodes, Nodes, Stored, PathBalanced;
      ghost var m := Snap(s);
      Peek(m, root, p, Bin(l, node, r));
      PeekDown(m, root, p, l, node, r);
      Kin(m, root, p, l, node, r);
      assert heir !in Opt(Root(l)) + {node} + Opt(Root(r)) by { Outside(l, node, r, heir); }
      CopyLinks(node, heir, node.left, node.right, node.parent);
      Substituted(m, Snap(s), old(root), root, p, l, node, r, heir);
      KeepStored(m, Snap(s), p, Height(Bin(l, node, r)));
    }

    /** Takes `node` out of the tree, but not out of the list. */
    method DeleteWorker(node: Node, ghost s: set<Node>, ghost p: Path, ghost l: Tree, ghost r: Tree)
      returns (ghost u: Tree)
      requires node in s && Sound(Snap(s), root, p, Bin(l, node, r))
      modifies `root, s`left, s`right, s`parent, s`balance
      ensures Whole(Snap(s), root, u, Joint(p, l, r))
      decreases l.Bin?
    {
      hide Hangs, Nodes, PathNodes, SameSpine, Stored, PathBalanced, Balanced, Height, Before, After;
      ghost var m := Snap(s);
      Peek(m, root, p, Bin(l, node, r));
      if node.left == null && node.right == null {
        u := DropLeaf(node, s, p);
        assert Before(p) + Walk(l) + Walk(r) + After(p) == Before(p) + Walk(Leaf) + After(p);
      } else if node.left == null {
        u := DropFor(node, node.right, s, p, l, r, r);
      } else if node.right == null {
        u := DropFor(node, node.left, s, p, l, r, l);
      } else {
        ghost var q0 := GoRight(p, l, node);
        Climb(m, root, q0, r);
        PeekDown(m, root, p, l, node, r);
        var min, q, rm := LocalMin(node.right, s, q0, r);
        SoundAnywhere(m, root, p, Bin(l, node, r), q, Bin(Leaf, min, rm));
        u := DeleteWorker(min, s, q, Leaf, rm);
        ghost var q', l', r' := AfterMin(m, old(root), Snap(s), root, p, l, node, r, q, min, rm, u);
        TakePlace(node, min, s, q', l', r');
        SoundIsWhole(Snap(s), root, q', Bin(l', min, r'));
        u := Plug(q', Bin(l', min, r'));
      }
    }

    method DropLeaf(node: Node, ghost s: set<Node>, ghost p: Path) returns (ghost u: Tree)
      requires node in s && Sound(Snap(s), root, p, Bin(Leaf, node, Leaf))
      modifies `root, s`left, s`right, s`parent, s`balance
      ensures Whole(Snap(s), root, u, Within(p, Walk(Leaf)))
    {
      hide Hangs, SameSpine;
      ghost var m := Snap(s);
      Peek(m, root, p, Bin(Leaf, node, Leaf));
      var parent := node.parent;
      if parent == null {
        root := null;
        Swap(m, Snap(s), old(root), root, p, Bin(Leaf, node, Leaf), Leaf);
        u := Leaf;
        SoundIsWhole(Snap(s), root, p, Leaf);
      } else if parent.left == node {
        parent.left := null;
        Swap(m, Snap(s), old(root), root, p, Bin(Leaf, node, Leaf), Leaf);
        KeepStored(m, Snap(s), p, 1);
        u := ShrunkLeft(parent, s, p, Leaf);
        DoneIsWhole(Snap(s), root, u, p, Leaf);
      } else {
        parent.right := null;
        Swap(m, Snap(s), old(root), root, p, Bin(Leaf, node, Leaf), Leaf);
        KeepStored(m, Snap(s), p, 1);
        u := ShrunkRight(parent, s, p, Leaf);
        DoneIsWhole(Snap(s), root, u, p, Leaf);
      }
    }

    /** `node` has one child only, which moves up. */
    method DropFor(node: Node, child: Node, ghost s: set<Node>, ghost p: Path, ghost l: Tree, ghost r: Tree,
                   ghost t: Tree)
      returns (ghost u: Tree)
      requires node in s && Sound(Snap(s), root, p, Bin(l, node, r))
      requires if l.Leaf? then t == r else r.Leaf? && t == l
      requires t.Bin? && t.node == child
      modifies `root, s`left, s`right, s`parent, s`balance
      ensures Whole(Snap(s), root, u, Joint(p, l, r))
    {
      hide Hangs, PathNodes, Nodes, SameSpine, Stored, PathBalanced, Walk, Height, Balanced, Before, After;
      ghost var m := Snap(s);
      Peek(m, root, p, Bin(l, node, r));
      Lonely(l, node, r, t);
      Kin(m, root, p, l, node, r);
      assert Before(p) + Walk(l) + Walk(r) + After(p) == Before(p) + Walk(t) + After(p);
      var parent := node.parent;
      child.parent := parent;
      if parent == null {
        root := child;
      } else if parent.left == node {
        parent.left := child;
      } else {
        parent.right := child;
      }
      MovedUp(m, Snap(s), old(root), root, p, l, node, r, t);
      KeepStored(m, Snap(s), p, Height(t) + 1);
      u := PostDelete(child, s, p, t);
      DoneIsWhole(Snap(s), root, u, p, t);
    }

    /** `leaf` becomes the left child of `node`, which had none. */
    method AttachLeft(node: Node, leaf: Node, ghost s: set<Node>, ghost p: Path, ghost r: Tree) returns (ghost u: Tree)
      requires node in s && Sound(Snap(s), root, p, Bin(Leaf, node, r))
      requires leaf in s && leaf !in PathNodes(p) && leaf !in Nodes(Bin(Leaf, node, r))
      requires leaf.left == null && leaf.right == null && leaf.balance == 0
      modifies `root, s`left, s`right, s`parent, s`balance
      ensures Whole(Snap(s), root, u, Within(p, [leaf] + Walk(Bin(Leaf, node, r))))
    {
      hide Hangs, PathNodes, Nodes, SameSpine, Stored, PathBalanced, Walk, Balanced, Before, After;
      ghost var m := Snap(s);
      Peek(m, root, p, Bin(Leaf, node, r));
      LeafGrows(Leaf, node, r, leaf);
      assert node != leaf by { Outside(Leaf, node, r, leaf); }
      var lopsided := node.balance == 1;
      node.balance := if lopsided then 0 else -1;
      leaf.parent := node;
      node.left := leaf;
      NewLeft(m, Snap(s), root, p, node, r, leaf);
      KeepStored(m, Snap(s), p, Height(Bin(Leaf, node, r)));
      ghost var t := Bin(Bin(Leaf, leaf, Leaf), node, r);
      if lopsided {
        SoundIsWhole(Snap(s), root, p, t);
        u := Plug(p, t);
      } else {
        u := PostInsert(node, s, p, t);
        DoneIsWhole(Snap(s), root, u, p, t);
      }
    }

    /** `leaf` becomes the right child of `node`, which had none. */
    method AttachRight(node: Node, leaf: Node, ghost s: set<Node>, ghost p: Path, ghost l: Tree) returns (ghost u: Tree)
      requires node in s && Sound(Snap(s), root, p, Bin(l, node, Leaf))
      requires leaf in s && leaf !in PathNodes(p) && leaf !in Nodes(Bin(l, node, Leaf))
      requires leaf.left == null && leaf.right == null && leaf.balance == 0
      modifies `root, s`left, s`right, s`parent, s`balance
      ensures Whole(Snap(s), root, u, Within(p, Walk(Bin(l, node, Leaf)) + [leaf]))
    {
      hide Hangs, PathNodes, Nodes, SameSpine, Stored, PathBalanced, Walk, Balanced, Before, After;
      ghost var m := Snap(s);
      Peek(m, root, p, Bin(l, node, Leaf));
      LeafGrows(l, node, Leaf, leaf);
      assert node != leaf by { Outside(l, node, Leaf, leaf); }
      var lopsided := node.balance == -1;
      node.balance := if lopsided then 0 else 1;
      leaf.parent := node;
      node.right := leaf;
      NewRight(m, Snap(s), root, p, l, node, leaf);
      KeepStored(m, Snap(s), p, Height(Bin(l, node, Leaf)));
      ghost var t := Bin(l, node, Bin(Leaf, leaf, Leaf));
      if lopsided {
        SoundIsWhole(Snap(s), root, p, t);
        u := Plug(p, t);
      } else {
        u := PostInsert(node, s, p, t);
        DoneIsWhole(Snap(s), root, u, p, t);
      }
    }

    /** Where a search for `key` ends: at the node it names, or at the node where
        it would be hung in. The number of comparisons is `d`, one for each node on
        the way. */
    method FindRec(node: Node, key: Key, ghost s: set<Node>, ghost p: Path, ghost t: Tree)
      returns (n: Node, diff: int, ghost q: Path, ghost l: Tree, ghost r: Tree, ghost d: nat)
      requires t.Bin? && t.node == node && node in s && Hangs(Snap(s), root, p, t)
      requires Order(comp) && Strict(comp, Walk(Plug(p, t)))
      requires Under(comp, Before(p), key) && Over(comp, After(p), key)
      ensures n in s && diff == comp(key, n.key) && Plug(q, Bin(l, n, r)) == Plug(p, t)
      ensures Under(comp, Before(q), key) && Over(comp, After(q), key)
      ensures (diff < 0 ==> l.Leaf?) && (diff > 0 ==> r.Leaf?)
      ensures Depth(q) + 1 == Depth(p) + d && d <= Height(t)
      decreases t
    {
      hide Hangs, PathNodes, Nodes, Walk, Strict, Under, Over, Before, After;
      Peek(Snap(s), root, p, t);
      PeekDown(Snap(s), root, p, t.left, node, t.right);
      diff := comp(key, node.key);
      if diff < 0 && node.left != null {
        SearchLeft(comp, p, t, key);
        Climb(Snap(s), root, GoLeft(p, node, t.right), t.left);
        n, diff, q, l, r, d := FindRec(node.left, key, s, GoLeft(p, node, t.right), t.left);
        d := d + 1;
      } else if diff > 0 && node.right != null {
        SearchRight(comp, p, t, key);
        Climb(Snap(s), root, GoRight(p, t.left, node), t.right);
        n, diff, q, l, r, d := FindRec(node.right, key, s, GoRight(p, t.left, node), t.right);
        d := d + 1;
      } else {
        n, q, l, r, d := node, p, t.left, t.right, 1;
      }
    }

    /** The end of the run that `node` leads. */
    method RunEnd(node: Node, ghost i: int) returns (last: Node, ghost k: int)
      requires Ring(head, list) && Marked(comp, list) && 0 <= i < |list| && list[i] == node
      ensures RunTo(comp, list, i, k) && last == list[k - 1]
    {
      hide Order, Sorted, Starts, NoDup;
      last, k := node, i + 1;
      while last.next != head
        invariant i < k <= |list| && last == At(head, list, k) && last.next == At(head, list, k + 1)
        invariant forall j :: i < j < k ==> !Starts(comp, list, j)
        decreases |list| - k
      {
        var next := last.next;
        if next.leader {
          break;
        }
        last, k := next, k + 1;
      }
    }

    /** `avl_insert_before` and `avl_insert_after`: the list part of an insertion. */
    method Thread(entry: Node, prev: Node, next: Node, ghost k: int)
      requires Ring(head, list) && 0 <= k <= |list| && prev == At(head, list, k) && next == At(head, list, k + 1)
      requires entry != head && entry !in list
      modifies `count, `list, entry`next, entry`prev, prev`next, next`prev
      ensures list == Put(old(list), k, entry) && Ring(head, list) && count == old(count) + 1
    {
      ListInsert(entry, prev, next, head, list, k);
      list := Put(list, k, entry);
      count := count + 1;
    }

    /** `avl_insert`. The new node goes behind all that are not greater, so that
        equal keys stay in the order of their insertion. */
    method Insert(entry: Node) returns (ret: int)
      requires Valid() && entry != head && entry !in list
      modifies `root, `count, `shape, `list, entry, head`next, head`prev, Elems(list)`next, Elems(list)`prev,
               Elems(list)`left, Elems(list)`right, Elems(list)`parent, Elems(list)`balance
      ensures Valid()
      ensures ret == (if allowDups || Absent(comp, old(list), entry.key) then 0 else -1)
      ensures list == if ret == 0 then Put(old(list), Slot(comp, old(list), entry.key), entry) else old(list)
    {
      hide Order, Sorted, Strict, Starts, Single, Sound, Marked, Leads, Ring, Put, Slot, Fits, Absent, Walk, Nodes;
      entry.parent, entry.left, entry.right := null, null, null;
      entry.balance := 0;
      entry.leader := true;
      if root == null {
        FirstEntry(entry);
        return 0;
      }
      ret := InsertBelow(entry);
    }

    /** The first node of all. */
    method FirstEntry(entry: Node)
      requires Valid() && entry != head && entry !in list && root == null
      requires entry.left == null && entry.right == null && entry.parent == null && entry.balance == 0 && entry.leader
      modifies `root, `count, `shape, `list, entry`next, entry`prev, head`next, head`prev
      ensures Valid() && Absent(comp, old(list), entry.key)
      ensures list == Put(old(list), Slot(comp, old(list), entry.key), entry)
    {
      hide Order, Sorted, Strict, Starts, Single, Marked, Leads, Put, Slot, Absent, Hangs;
      Peek(Snap(Elems(list)), root, Top, shape);
      NoLeads(comp, list);
      assert At(head, list, 0).next == At(head, list, 1);
      Thread(entry, head, head.next, 0);
      OneEntry(comp, entry);
      root := entry;
      count := 1;
      shape := Bin(Leaf, entry, Leaf);
      OneNode(Snap(Elems(list)), entry);
    }

    /** A search from the root, and where it ends in the list. */
    method Search(key: Key)
      returns (node: Node, diff: int, ghost q: Path, ghost l: Tree, ghost r: Tree, ghost i: int, ghost d: nat)
      requires Valid() && root != null
      ensures diff == comp(key, node.key) && shape == Plug(q, Bin(l, node, r))
      ensures Led(comp, list, Before(q) + Walk(l), node, Walk(r) + After(q), i)
      ensures Under(comp, Before(q), key) && Over(comp, After(q), key)
      ensures (diff < 0 ==> l.Leaf?) && (diff > 0 ==> r.Leaf?)
      ensures d == Depth(q) + 1 && Fib(d + 2) <= |Walk(shape)| + 1
    {
      hide Order, Sorted, Strict, Starts, Single, Marked, Leads, Hangs, Walk, Nodes, Led, Fib, Height;
      ghost var m := Snap(Elems(list));
      Peek(m, root, Top, shape);
      node, diff, q, l, r, d := FindRec(root, key, Elems(list), Top, shape);
      HeightBound(shape);
      FibMonotone(d + 2, Height(shape) + 2);
      i := Locate(comp, list, q, l, node, r);
    }

    method InsertBelow(entry: Node) returns (ret: int)
      requires Valid() && entry != head && entry !in list && root != null
      requires entry.left == null && entry.right == null && entry.parent == null && entry.balance == 0 && entry.leader
      modifies `root, `count, `shape, `list, entry, head`next, head`prev, Elems(list)`next, Elems(list)`prev,
               Elems(list)`left, Elems(list)`right, Elems(list)`parent, Elems(list)`balance
      ensures Valid()
      ensures ret == (if allowDups || Absent(comp, old(list), entry.key) then 0 else -1)
      ensures list == if ret == 0 then Put(old(list), Slot(comp, old(list), entry.key), entry) else old(list)
    {
      hide Order, Sorted, Strict, Starts, Single, Marked, Leads, Put, Slot, Hangs, Fits, Ring, Sound, Walk, Nodes;
      var node, diff, q, l, r, i, d := Search(entry.key);
      var last, k := RunEnd(node, i);
      diff := comp(entry.key, node.key);
      if diff == 0 {
        assert !Absent(comp, list, entry.key) by { assert comp(entry.key, list[i].key) == 0; }
        if !allowDups {
          return -1;
        }
        entry.leader := false;
        JoinRun(entry, last, node, q, l, r, i, k);
        return 0;
      }
      PeekBalance(node, q, l, r);
      if node.balance == 1 {
        LeadLeft(entry, node, q, l, r, i);
        return 0;
      }
      if node.balance == -1 {
        LeadRight(entry, node, last, q, l, r, i, k);
        return 0;
      }
      if diff < 0 {
        LeadLeft(entry, node, q, l, r, i);
        return 0;
      }
      LeadRight(entry, node, last, q, l, r, i, k);
      return 0;
    }

    lemma PeekBalance(node: Node, q: Path, l: Tree, r: Tree)
      requires Valid() && shape == Plug(q, Bin(l, node, r))
      ensures node.balance == 1 ==> r.Bin?
      ensures node.balance == -1 ==> l.Bin?
    {
      hide Order, Sorted, Strict, Starts, Single, Marked, Leads, Hangs, Ring, Walk, Nodes;
      SoundAnywhere(Snap(Elems(list)), root, Top, shape, q, Bin(l, node, r));
      Peek(Snap(Elems(list)), root, q, Bin(l, node, r));
      Tall(l);
      Tall(r);
    }

    /** The list part of an insertion behind all that are not greater. */
    method ThreadAt(entry: Node, prev: Node, next: Node, ghost k: int)
      requires ListOk() && 0 <= k <= |list| && prev == At(head, list, k) && next == At(head, list, k + 1)
      requires entry != head && entry !in list && Fits(comp, list, entry.key, k)
      requires entry.leader <==> Absent(comp, list, entry.key)
      requires !allowDups ==> entry.leader
      modifies `count, `list, entry`next, entry`prev, prev`next, next`prev
      ensures ListOk() && list == Put(old(list), Slot(comp, old(list), entry.key), entry)
      ensures Elems(list) == Elems(old(list)) + {entry}
      ensures Leads(comp, list) == Leads(comp, old(list)) + (if entry.leader then {entry} else {})
    {
      hide Order, Sorted, Starts, Single, Marked, Leads, Put, Slot, Fits, Absent, Ring, At;
      ghost var s := list;
      PutAll(comp, s, entry, k);
      Thread(entry, prev, next, k);
      ElemsPut(s, k, entry);
      PutMarked(comp, s, entry, k);
    }

    /** A node joins the run of equal keys led by `node`, at its end. */
    method JoinRun(entry: Node, last: Node, ghost node: Node, ghost q: Path, ghost l: Tree, ghost r: Tree,
                   ghost i: int, ghost k: int)
      requires Valid() && entry != head && entry !in list && allowDups && !entry.leader
      requires Led(comp, list, Before(q) + Walk(l), node, Walk(r) + After(q), i)
      requires comp(entry.key, node.key) == 0
      requires RunTo(comp, list, i, k) && last == list[k - 1]
      modifies `count, `list, entry`next, entry`prev, head`next, head`prev, Elems(list)`next, Elems(list)`prev
      ensures Valid() && list == Put(old(list), Slot(comp, old(list), entry.key), entry)
    {
      hide Order, Sorted, Strict, Starts, Single, Marked, Leads, Put, Slot, Fits, Walk, Nodes, Led, RunTo, Absent,
           Ring, At,
           Before, After, Sound, NoDup;
      ghost var s, m, b, a := list, Snap(Elems(list)), Before(q) + Walk(l), Walk(r) + After(q);
      LedAt(comp, s, b, node, a, i);
      RunBounds(comp, s, i, k);
      OverAll(comp, s, b, node, a, i, entry.key);
      FitsAfter(comp, s, b, node, a, i, k, entry.key);
      IsPresent(comp, s, i, entry.key);
      Neighbours(head, s, k);
      ThreadAt(entry, last, last.next, k);
      Widen(m, Snap(Elems(list)), root, shape);
    }

    /** The list part for a new leader; the tree is still without it. */
    method JoinList(entry: Node, prev: Node, next: Node, ghost k: int)
      requires Valid() && 0 <= k <= |list| && prev == At(head, list, k) && next == At(head, list, k + 1)
      requires entry != head && entry !in list && Fits(comp, list, entry.key, k)
      requires entry.leader && Absent(comp, list, entry.key)
      modifies `count, `list, entry`next, entry`prev, prev`next, next`prev
      ensures ListOk() && list == Put(old(list), Slot(comp, old(list), entry.key), entry)
      ensures Elems(list) == Elems(old(list)) + {entry} && Nodes(shape) + {entry} == Leads(comp, list)
      ensures entry !in Nodes(shape) && Strict(comp, Walk(shape)) && Sound(Snap(Elems(list)), root, Top, shape)
    {
      hide Order, Sorted, Strict, Starts, Single, Marked, Leads, Put, Slot, Fits, Walk, Nodes, Absent, Ring, At, Sound,
           NoDup, ListOk;
      ghost var m := Snap(Elems(list));
      LeadsWithin(comp, list);
      ThreadAt(entry, prev, next, k);
      Widen(m, Snap(Elems(list)), root, shape);
    }

    /** A new leader, hung in on the left of `node`. */
    method LeadLeft(entry: Node, node: Node, ghost q: Path, ghost l: Tree, ghost r: Tree, ghost i: int)
      requires Valid() && entry != head && entry !in list && l.Leaf?
      requires entry.left == null && entry.right == null && entry.balance == 0 && entry.leader
      requires Led(comp, list, Before(q) + Walk(l), node, Walk(r) + After(q), i)
      requires Under(comp, Before(q), entry.key) && Over(comp, After(q), entry.key)
      requires shape == Plug(q, Bin(l, node, r)) && comp(entry.key, node.key) < 0
      modifies `root, `count, `shape, `list, entry, head`next, head`prev, Elems(list)`next, Elems(list)`prev,
               Elems(list)`left, Elems(list)`right, Elems(list)`parent, Elems(list)`balance
      ensures Valid() && Absent(comp, old(list), entry.key)
      ensures list == Put(old(list), Slot(comp, old(list), entry.key), entry)
    {
      hide Order, Sorted, Strict, Starts, Single, Marked, Leads, Put, Slot, Fits, Walk, Nodes, Led, Under, Over, Absent,
           Ring, At, Before, After, Sound, NoDup, ListOk, Plug, PathNodes;
      LedAt(comp, list, Before(q) + Walk(l), node, Walk(r) + After(q), i);
      PlaceBefore(comp, list, q, node, r, i, entry);
      RingOf(i);
      JoinList(entry, node.prev, node, i);
      Stranger(q, Bin(Leaf, node, r), entry);
      HangLeft(entry, node, q, r);
    }

    /** A new leader, hung in on the right of `node`. */
    method LeadRight(entry: Node, node: Node, last: Node, ghost q: Path, ghost l: Tree, ghost r: Tree,
                     ghost i: int, ghost k: int)
      requires Valid() && entry != head && entry !in list && r.Leaf?
      requires entry.left == null && entry.right == null && entry.balance == 0 && entry.leader
      requires Led(comp, list, Before(q) + Walk(l), node, Walk(r) + After(q), i)
      requires Under(comp, Before(q), entry.key) && Over(comp, After(q), entry.key)
      requires shape == Plug(q, Bin(l, node, r)) && comp(entry.key, node.key) > 0
      requires RunTo(comp, list, i, k) && last == list[k - 1]
      modifies `root, `count, `shape, `list, entry, head`next, head`prev, Elems(list)`next, Elems(list)`prev,
               Elems(list)`left, Elems(list)`right, Elems(list)`parent, Elems(list)`balance
      ensures Valid() && Absent(comp, old(list), entry.key)
      ensures list == Put(old(list), Slot(comp, old(list), entry.key), entry)
    {
      hide Order, Sorted, Strict, Starts, Single, Marked, Leads, Put, Slot, Fits, Walk, Nodes, Led, Under, Over, Absent,
           Ring, At, Before, After, Sound, NoDup, ListOk, RunTo, Plug, PathNodes;
      LedAt(comp, list, Before(q) + Walk(l), node, Walk(r) + After(q), i);
      RunBounds(comp, list, i, k);
      PlaceAfter(comp, list, q, l, node, i, k, entry);
      RingOf(k);
      JoinList(entry, last, last.next, k);
      Stranger(q, Bin(l, node, Leaf), entry);
      HangRight(entry, node, q, l);
    }

    /** The tree part, when `entry` is in the list already. */
    method HangLeft(entry: Node, node: Node, ghost q: Path, ghost r: Tree)
      requires Order(comp) && Strict(comp, Walk(shape)) && Nodes(shape) + {entry} == Leads(comp, list)
      requires Sound(Snap(Elems(list)), root, Top, shape) && shape == Plug(q, Bin(Leaf, node, r))
      requires {node, entry} <= Elems(list) && entry !in PathNodes(q) && entry !in Nodes(Bin(Leaf, node, r))
      requires entry.left == null && entry.right == null && entry.balance == 0
      requires Under(comp, Before(q), entry.key) && Over(comp, After(q), entry.key) && comp(entry.key, node.key) < 0
      modifies `root, `shape, Elems(list)`left, Elems(list)`right, Elems(list)`parent, Elems(list)`balance
      ensures TreeOk()
    {
      hide Order, Strict, Leads, Walk, Nodes, Under, Over, Before, After, Sound;
      SoundAnywhere(Snap(Elems(list)), root, Top, shape, q, Bin(Leaf, node, r));
      WalkNodes(shape);
      WalkBefore(comp, q, node, r, entry);
      shape := AttachLeft(node, entry, Elems(list), q, r);
      WalkNodes(shape);
    }

    method HangRight(entry: Node, node: Node, ghost q: Path, ghost l: Tree)
      requires Order(comp) && Strict(comp, Walk(shape)) && Nodes(shape) + {entry} == Leads(comp, list)
      requires Sound(Snap(Elems(list)), root, Top, shape) && shape == Plug(q, Bin(l, node, Leaf))
      requires {node, entry} <= Elems(list) && entry !in PathNodes(q) && entry !in Nodes(Bin(l, node, Leaf))
      requires entry.left == null && entry.right == null && entry.balance == 0
      requires Under(comp, Before(q), entry.key) && Over(comp, After(q), entry.key) && comp(entry.key, node.key) > 0
      modifies `root, `shape, Elems(list)`left, Elems(list)`right, Elems(list)`parent, Elems(list)`balance
      ensures TreeOk()
    {
      hide Order, Strict, Leads, Walk, Nodes, Under, Over, Before, After, Sound;
      SoundAnywhere(Snap(Elems(list)), root, Top, shape, q, Bin(l, node, Leaf));
      WalkNodes(shape);
      WalkAfter(comp, q, l, node, entry);
      shape := AttachRight(node, entry, Elems(list), q, l);
      WalkNodes(shape);
    }

    lemma RingOf(k: int)
      requires ListOk() && 0 <= k <= |list|
      ensures At(head, list, k).next == At(head, list, k + 1) && At(head, list, k + 1).prev == At(head, list, k)
      ensures {At(head, list, k), At(head, list, k + 1)} <= {head} + Elems(list)
      ensures 0 < k ==> At(head, list, k) == list[k - 1]
      ensures k < |list| ==> At(head, list, k + 1) == list[k]
      ensures Order(comp)
    {
      Neighbours(head, list, k);
    }

    /** `avl_delete`. */
    method Delete(node: Node)
      requires Valid() && node in list
      modifies `root, `count, `shape, `list, head`next, head`prev, Elems(list)
      ensures Valid() && list == Cut(old(list), Index(old(list), node))
      ensures node.next == null && node.prev == null
    {
      hide Order, Sorted, Strict, Starts, Single, Leads, Cut, Index, Walk, Nodes, Ring, At, Sound, NoDup, Marked,
           Valid, Pruned;
      ghost var k := Index(list, node);
      AboutNode(k);
      if node.leader {
        if allowDups && node.next != head && !node.next.leader {
          HandOver(node, node.next, k);
        } else {
          Uproot(node, k);
        }
      } else {
        PrunedAlready(k);
      }
      Remove(node, k);
    }

    /** The node at `k` has left the tree and is still in the list. */
    ghost predicate Pruned(k: int)
      reads this, head, Elems(list)
    {
      && 0 <= k < |list| && Ring(head, list) && count == |list|
      && Order(comp) && Sorted(comp, list) && (!allowDups ==> Single(comp, list))
      && MarkedBut(comp, list, k)
      && Strict(comp, Walk(shape)) && Nodes(shape) == Leads(comp, Cut(list, k))
      && Sound(Snap(Elems(list)), root, Top, shape)
    }

    lemma AboutNode(k: int)
      requires Valid() && 0 <= k < |list|
      ensures list[k].leader <==> Starts(comp, list, k)
      ensures list[k].next == head <==> k + 1 == |list|
      ensures k + 1 < |list| ==> list[k].next == list[k + 1] && (list[k + 1].leader <==> Starts(comp, list, k + 1))
      ensures !allowDups && k + 1 < |list| ==> Starts(comp, list, k + 1)
    {
      hide Order, Sorted, Strict, Starts, Leads, Walk, Nodes, Sound;
      Neighbours(head, list, k + 1);
    }

    /** A node that is not a leader was never in the tree. */
    lemma PrunedAlready(k: int)
      requires Valid() && 0 <= k < |list| && !Starts(comp, list, k)
      ensures Pruned(k)
    {
      hide Order, Sorted, Strict, Walk, Nodes, Sound, Starts;
      CutLeads(comp, list, k);
      LeadsAt(comp, list, k);
    }

    /** A leader in the tree. */
    lemma Spot(k: int) returns (q: Path, l: Tree, r: Tree)
      requires Valid() && 0 <= k < |list| && Starts(comp, list, k)
      ensures shape == Plug(q, Bin(l, list[k], r)) && Distinct(shape)
      ensures Sound(Snap(Elems(list)), root, q, Bin(l, list[k], r))
    {
      hide Order, Sorted, Strict, Starts, Single, Leads, Walk, Ring, Sound, Marked;
      NoDupOf();
      LeadsAt(comp, list, k);
      q, l, r := Zoom(Top, shape, list[k]);
      SoundAnywhere(Snap(Elems(list)), root, Top, shape, q, Bin(l, list[k], r));
      SoundDistinct(Snap(Elems(list)), root, Top, shape);
    }

    /** The next node of the run becomes the leader and takes over the links. */
    method HandOver(node: Node, next: Node, ghost k: int)
      requires Valid() && 0 <= k && k + 1 < |list| && HasHeir(comp, list, k) && list[k] == node && list[k + 1] == next
      modifies `root, `shape, Elems(list)`left, Elems(list)`right, Elems(list)`parent, Elems(list)`balance, next`leader
      ensures Pruned(k)
    {
      hide Order, Sorted, Strict, Leads, Cut, Walk, Nodes, Ring, Sound, NoDup, Plug, Distinct, PathNodes, Starts,
           HasHeir,
           Marked, MarkedBut, Single;
      ghost var q, l, r := Heir(k);
      MarkHeir(next, k);
      TakePlace(node, next, Elems(list), q, l, r);
      SoundIsWhole(Snap(Elems(list)), root, q, Bin(l, next, r));
      shape := Plug(q, Bin(l, next, r));
    }

    /** The heir of a leader fits in its place. */
    lemma Heir(k: int) returns (q: Path, l: Tree, r: Tree)
      requires Valid() && 0 <= k && k + 1 < |list| && HasHeir(comp, list, k)
      ensures Sound(Snap(Elems(list)), root, q, Bin(l, list[k], r)) && Apart(list[k + 1], q, Bin(l, list[k], r))
      ensures Strict(comp, Walk(Plug(q, Bin(l, list[k + 1], r))))
      ensures Nodes(Plug(q, Bin(l, list[k + 1], r))) == Leads(comp, Cut(list, k))
    {
      hide Order, Sorted, Strict, Leads, Cut, Walk, Nodes, Ring, Sound, NoDup, Plug, Distinct, PathNodes, Starts,
           HasHeir,
           Marked, Single;
      HeirKey(comp, list, k);
      q, l, r := Spot(k);
      NoDupOf();
      LeadsAt(comp, list, k + 1);
      CutLeads(comp, list, k);
      SwapWalk(comp, q, l, list[k], r, list[k + 1]);
      Stranger(q, Bin(l, list[k], r), list[k + 1]);
    }

    method MarkHeir(next: Node, ghost k: int)
      requires ListOk() && 0 <= k && k + 1 < |list| && HasHeir(comp, list, k) && list[k + 1] == next
      modifies next`leader
      ensures MarkedBut(comp, list, k)
    {
      hide Order, Sorted, Starts;
      next.leader := true;
    }

    lemma NoDupOf()
      requires ListOk()
      ensures NoDup(list)
    {
    }

    /** No other node of its run is left: the node leaves the tree. */
    method Uproot(node: Node, ghost k: int)
      requires Valid() && 0 <= k < |list| && Starts(comp, list, k) && !HasHeir(comp, list, k) && list[k] == node
      modifies `root, `shape, Elems(list)`left, Elems(list)`right, Elems(list)`parent, Elems(list)`balance
      ensures Pruned(k)
    {
      hide Order, Sorted, Strict, Leads, Cut, Walk, Nodes, Ring, Sound, NoDup, Plug, Distinct, PathNodes, Starts,
           Before, After;
      ghost var q, l, r := Spot(k);
      NoDupOf();
      CutLeads(comp, list, k);
      CutWalk(comp, q, l, node, r);
      shape := DeleteWorker(node, Elems(list), q, l, r);
      WalkNodes(shape);
    }

    /** `avl_remove`. */
    method Remove(node: Node, ghost k: int)
      requires Pruned(k) && list[k] == node
      modifies `count, `list, head`next, head`prev, Elems(list)`next, Elems(list)`prev
      ensures Valid() && list == Cut(old(list), k)
      ensures node.next == null && node.prev == null
    {
      hide Order, Sorted, Strict, Starts, Single, Leads, Walk, Nodes, Sound, Marked, MarkedBut, HasHeir, NoDup, Ring,
           At;
      ghost var s, m := list, Snap(Elems(list));
      RingNoDup(head, s);
      Neighbours(head, s, k);
      Neighbours(head, s, k + 1);
      ListDel(node, head, s, k);
      list := Cut(s, k);
      count := count - 1;
      CutSorted(comp, s, k);
      CutMarked(comp, s, k);
      ElemsCut(s, k);
      LeadsWithin(comp, list);
      Narrow(m, Snap(Elems(list)), root, shape);
    }

    // ----- searching

    /** `avl_find`: the first node with the key. The search ends at `n`, where it has
        made one comparison for each node on the way, and these are logarithmically
        many. */
    method Find(key: Key)
      returns (found: Node?, ghost q: Path, ghost l: Tree, ghost n: Node?, ghost r: Tree, ghost d: nat)
      requires Valid()
      ensures n == null <==> root == null
      ensures n != null ==>
                && shape == Plug(q, Bin(l, n, r)) && d == Depth(q) + 1
                && Under(comp, Before(q), key) && Over(comp, After(q), key)
                && (comp(key, n.key) < 0 ==> l.Leaf?) && (comp(key, n.key) > 0 ==> r.Leaf?)
      ensures n == null ==> d == 0
      ensures found == null <==> Absent(comp, list, key)
      ensures found != null ==>
                LowSlot(comp, list, key) < |list| && found == list[LowSlot(comp, list, key)]
                    && comp(key, found.key) == 0
      ensures Fib(d + 2) <= |Walk(shape)| + 1
    {
      hide Order, Sorted, Strict, Starts, Single, Marked, Hangs, Walk, Nodes, Under, Over, Before, After, Sound, Leads,
           NoDup;
      if root == null {
        EmptyTree();
        q, l, n, r, d := Top, Leaf, null, Leaf, 0;
        return null, q, l, n, r, d;
      }
      var node, diff, q', l', r', i, steps := Search(key);
      q, l, n, r, d := q', l', node, r', steps;
      if diff == 0 {
        DownFrom(comp, list, key, i);
        IsLowSlot(comp, list, key, i);
        IsPresent(comp, list, i, key);
        return node, q, l, n, r, d;
      }
      NotFound(comp, list, q, l, node, r, i, key);
      return null, q, l, n, r, d;
    }

    lemma EmptyTree()
      requires Valid() && root == null
      ensures list == [] && |Walk(shape)| == 0
    {
      hide Order, Sorted, Starts, Single, Marked, Hangs, Leads, Ring;
      Peek(Snap(Elems(list)), root, Top, shape);
      NoLeads(comp, list);
    }

    /** The neighbours of a node of the list. */
    lemma Around(i: int)
      requires ListOk() && 0 <= i < |list|
      ensures list[i].next == head <==> i + 1 == |list|
      ensures i + 1 < |list| ==> list[i].next == list[i + 1]
      ensures list[i].prev == head <==> i == 0
      ensures 0 < i ==> list[i].prev == list[i - 1]
      ensures Order(comp) && Sorted(comp, list)
    {
      Neighbours(head, list, i);
      Neighbours(head, list, i + 1);
    }

    /** `avl_find_lessequal`: the last node whose key is not greater. */
    method FindLessEqual(key: Key) returns (found: Node?)
      requires Valid()
      ensures found == null <==> Slot(comp, list, key) == 0
      ensures found != null ==> found == list[Slot(comp, list, key) - 1]
    {
      hide Order, Sorted, Under, Over, Before, After, Walk, Slot, ListOk, TreeOk, Led, Starts;
      if root == null {
        EmptyTree();
        IsSlot(comp, list, key, 0);
        return null;
      }
      var node, diff, q, l, r, i, n := Search(key);
      LedAt(comp, list, Before(q) + Walk(l), node, Walk(r) + After(q), i);
      while diff < 0
        invariant ListOk() && 0 <= i < |list| && node == list[i] && diff == comp(key, node.key)
        decreases i
      {
        Around(i);
        if node.prev == head {
          SlotAt(comp, list, key, 0);
          return null;
        }
        node, i := node.prev, i - 1;
        diff := comp(key, node.key);
      }
      found := LastNotGreater(key, node, i);
    }

    /** On to the right from a node whose key is not greater. */
    method LastNotGreater(key: Key, start: Node, ghost k: int) returns (node: Node)
      requires ListOk() && 0 <= k < |list| && start == list[k] && comp(key, start.key) >= 0
      ensures Slot(comp, list, key) > 0 && node == list[Slot(comp, list, key) - 1]
    {
      hide Order, Sorted, Slot, ListOk, Starts;
      ghost var i := k;
      node := start;
      var next, diff := node, comp(key, node.key);
      while diff >= 0
        invariant ListOk() && 0 <= i < |list| && next == list[i] && diff == comp(key, next.key)
        invariant diff < 0 ==> 0 < i && node == list[i - 1] && comp(key, node.key) >= 0
        decreases |list| - i
      {
        Around(i);
        node := next;
        if node.next == head {
          SlotAt(comp, list, key, i + 1);
          return;
        }
        next, i := node.next, i + 1;
        diff := comp(key, next.key);
      }
      Around(i);
      SlotAt(comp, list, key, i);
    }

    /** `avl_find_greaterequal`: the first node whose key is not less. */
    method FindGreaterEqual(key: Key) returns (found: Node?)
      requires Valid()
      ensures found == null <==> LowSlot(comp, list, key) == |list|
      ensures found != null ==> found == list[LowSlot(comp, list, key)]
    {
      hide Order, Sorted, Under, Over, Before, After, Walk, LowSlot, ListOk, TreeOk, Led, Starts;
      if root == null {
        EmptyTree();
        IsLowSlot(comp, list, key, 0);
        return null;
      }
      var node, diff, q, l, r, i, n := Search(key);
      LedAt(comp, list, Before(q) + Walk(l), node, Walk(r) + After(q), i);
      while diff > 0
        invariant ListOk() && 0 <= i < |list| && node == list[i] && diff == comp(key, node.key)
        decreases |list| - i
      {
        Around(i);
        if node.next == head {
          LowSlotAt(comp, list, key, |list|);
          return null;
        }
        node, i := node.next, i + 1;
        diff := comp(key, node.key);
      }
      found := FirstNotLess(key, node, i);
    }

    /** On to the left from a node whose key is not less. */
    method FirstNotLess(key: Key, start: Node, ghost k: int) returns (node: Node)
      requires ListOk() && 0 <= k < |list| && start == list[k] && comp(key, start.key) <= 0
      ensures LowSlot(comp, list, key) < |list| && node == list[LowSlot(comp, list, key)]
    {
      hide Order, Sorted, LowSlot, ListOk, Starts;
      ghost var i := k;
      node := start;
      var next, diff := node, comp(key, node.key);
      while diff <= 0
        invariant ListOk() && 0 <= i < |list| && next == list[i] && diff == comp(key, next.key)
        invariant diff > 0 ==> i + 1 < |list| && node == list[i + 1] && comp(key, node.key) <= 0
        decreases i
      {
        Around(i);
        node := next;
        if node.prev == head {
          LowSlotAt(comp, list, key, i);
          return;
        }
        next, i := node.prev, i - 1;
        diff := comp(key, next.key);
      }
      Around(i);
      LowSlotAt(comp, list, key, i + 1);
    }

    /** In every state the list is the in-order walk of the tree, with every
        leader followed by the rest of its run. */
    lemma ListIsWalk()
      requires Valid()
      ensures Threads(comp, Walk(shape), list) && count == |list|
    {
      hide Order, Sorted, Strict, Starts, Single, Marked, Leads, Hangs;
      WalkNodes(shape);
      WalkThreads(comp, Walk(shape), list);
    }
  }
}
