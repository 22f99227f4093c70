/** list.h: the circular doubly linked list that threads the nodes of a tree. */
module List {
  import opened AvlShape

  /** The elements of the ring by position, the head at both ends. */
  ghost function At(h: Node, s: seq<Node>, i: int): Node
    requires 0 <= i <= |s| + 1
  {
    if i == 0 || i == |s| + 1 then h else s[i - 1]
  }

  /** The pointers run through `h` and `s` in both directions. */
  ghost predicate Ring(h: Node, s: seq<Node>)
    reads h`next, h`prev, Elems(s)`next, Elems(s)`prev
  {
    && NoDup(s) && h !in s
    && (forall i :: 0 <= i <= |s| ==> At(h, s, i).next == At(h, s, i + 1))
    && (forall i :: 0 < i <= |s| + 1 ==> At(h, s, i).prev == At(h, s, i - 1))
  }

  method InitListHead(list: Node)
    modifies list`next, list`prev
    ensures Ring(list, [])
  {
    list.next, list.prev := list, list;
  }

  lemma Neighbours(h: Node, s: seq<Node>, k: int)
    requires Ring(h, s) && 0 <= k <= |s|
    ensures At(h, s, k).next == At(h, s, k + 1) && At(h, s, k + 1).prev == At(h, s, k)
    ensures {At(h, s, k), At(h, s, k + 1)} <= {h} + Elems(s)
    ensures 0 < k ==> At(h, s, k) == s[k - 1] && At(h, s, k) != h
    ensures k < |s| ==> At(h, s, k + 1) == s[k] && At(h, s, k + 1) != h
    ensures k == 0 ==> At(h, s, k) == h
    ensures k == |s| ==> At(h, s, k + 1) == h
  {
  }

  lemma RingNoDup(h: Node, s: seq<Node>)
    requires Ring(h, s)
    ensures NoDup(s) && h !in s
  {
  }

  lemma AtDistinct(h: Node, s: seq<Node>, i: int, j: int)
    requires NoDup(s) && h !in s && 0 <= i <= |s| + 1 && 0 <= j <= |s| + 1
    ensures At(h, s, i) == At(h, s, j) ==> i == j || (i == 0 && j == |s| + 1) || (i == |s| + 1 && j == 0)
  {
  }

  /** `_list_add`: the new entry goes between two neighbours. */
  method ListInsert(entry: Node, prev: Node, next: Node, ghost h: Node, ghost s: seq<Node>, ghost k: nat)
    requires Ring(h, s) && k <= |s| && prev == At(h, s, k) && next == At(h, s, k + 1)
    requires entry != h && entry !in s
    modifies entry`next, entry`prev, prev`next, next`prev
    ensures Ring(h, s[..k] + [entry] + s[k..])
  {
    ghost var s' := s[..k] + [entry] + s[k..];
    assert forall i :: 0 <= i <= k ==> At(h, s', i) == At(h, s, i);
    assert forall i :: k < i <= |s| + 1 ==> At(h, s', i + 1) == At(h, s, i);
    next.prev := entry;
    entry.next := next;
    entry.prev := prev;
    prev.next := entry;
    forall i | 0 <= i <= |s'| ensures At(h, s', i).next == At(h, s', i + 1) {
      var j := if i <= k then i else i - 1;
      assert At(h, s, j).next == if j == k then entry else At(h, s, j + 1) by { AtDistinct(h, s, j, k); }
    }
    forall i | 0 < i <= |s'| + 1 ensures At(h, s', i).prev == At(h, s', i - 1) {
      var j := if i <= k then i else if i == k + 1 then k + 1 else i - 1;
      assert At(h, s, j).prev == if j == k + 1 then entry else At(h, s, j - 1) by { AtDistinct(h, s, j, k + 1); }
    }
  }

  method ListDel(entry: Node, ghost h: Node, ghost s: seq<Node>, ghost k: nat)
    requires Ring(h, s) && k < |s| && s[k] == entry
    modifies entry`next, entry`prev, At(h, s, k)`next, At(h, s, k + 2)`prev
    ensures Ring(h, s[..k] + s[k + 1..])
    ensures entry.next == null && entry.prev == null
  {
    ghost var s' := s[..k] + s[k + 1..];
    assert forall i :: 0 <= i <= k ==> At(h, s', i) == At(h, s, i);
    assert forall i :: k < i <= |s| ==> At(h, s', i) == At(h, s, i + 1);
    assert entry == At(h, s, k + 1);
    AtDistinct(h, s, k, k + 1);
    AtDistinct(h, s, k + 1, k + 2);
    entry.next.prev := entry.prev;
    entry.prev.next := entry.next;
    entry.next, entry.prev := null, null;
    forall i | 0 <= i <= |s'| ensures At(h, s', i).next == At(h, s', i + 1) {
      var j := if i <= k then i else i + 1;
      AtDistinct(h, s, j, k);
      AtDistinct(h, s, j, k + 1);
      assert At(h, s, j).next == if j == k then At(h, s, k + 2) else At(h, s, j + 1);
    }
    forall i | 0 < i <= |s'| + 1 ensures At(h, s', i).prev == At(h, s', i - 1) {
      var j := if i <= k then i else i + 1;
      AtDistinct(h, s, j, k + 1);
      AtDistinct(h, s, j, k + 2);
      assert At(h, s, j).prev == if j == k + 2 then At(h, s, k) else At(h, s, j - 1);
    }
  }
}
