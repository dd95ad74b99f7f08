/**
 * The intrusive doubly linked list. `nodes` and `vals` are what the pointers spell out; every
 * operation is proved to do the corresponding sequence operation and to leave the pointers consistent.
 */
module DLists {
  /** `list_node`. */
  class ListNode<T> {
    var prev: ListNode?<T>
    var next: ListNode?<T>
    const value: T

    constructor (value: T, prev: ListNode?<T>, next: ListNode?<T>)
      ensures this.value == value && this.prev == prev && this.next == next
    {
      this.value, this.prev, this.next := value, prev, next;
    }
  }

  /** Element `i` of a sequence of nodes, or NULL outside it. */
  ghost function NodeAt<T>(nodes: seq<ListNode<T>>, i: int): ListNode?<T> {
    if 0 <= i < |nodes| then nodes[i] else null
  }

  ghost predicate Linked<T>(nodes: seq<ListNode<T>>, i: nat)
    requires i < |nodes|
    reads nodes[i]
  {
    nodes[i].next == NodeAt(nodes, i + 1) && nodes[i].prev == NodeAt(nodes, i - 1)
  }

  class DList<T> {
    var head: ListNode?<T>
    var tail: ListNode?<T>
    var len: nat
    ghost var nodes: seq<ListNode<T>>
    ghost var vals: seq<T>

    ghost predicate Valid()
      reads this, nodes
    {
      && len == |nodes| == |vals| && head == NodeAt(nodes, 0) && tail == NodeAt(nodes, |nodes| - 1)
      && (forall i :: 0 <= i < |nodes| ==> Linked(nodes, i))
      && (forall i :: 0 <= i < |nodes| ==> nodes[i].value == vals[i])
    }

    /** The links alone make the nodes distinct: equal ones would have equal predecessors down to the head. */
    lemma Apart(i: nat, j: nat)
      requires Valid() && i < j < |nodes|
      ensures nodes[i] != nodes[j]
    {
      assert Linked(nodes, i) && Linked(nodes, j);
      if i > 0 { Apart(i - 1, j - 1); }
    }

    lemma OnlyAt(i: int)
      requires Valid()
      ensures forall j :: 0 <= j < |nodes| && 0 <= i < |nodes| && j != i ==> nodes[j] != nodes[i]
    {
      forall j | 0 <= j < |nodes| && 0 <= i < |nodes| && j != i ensures nodes[j] != nodes[i] {
        if i < j { Apart(i, j); } else { Apart(j, i); }
      }
    }

    /** `list_create`. */
    constructor ()
      ensures Valid() && nodes == [] && vals == []
    {
      head, tail, len := null, null, 0;
      nodes, vals := [], [];
    }

    /** `list_add_node_head`. */
    method AddHead(value: T) returns (node: ListNode<T>)
      requires Valid()
      modifies this, nodes
      ensures Valid() && fresh(node) && nodes == [node] + old(nodes) && vals == [value] + old(vals)
    {
      node := new ListNode(value, null, null);
      if len == 0 {
        head, tail := node, node;
      } else {
        OnlyAt(0);
        node.next := head;
        head.prev := node;
        head := node;
      }
      len := len + 1;
      nodes, vals := [node] + nodes, [value] + vals;
      forall k | 0 <= k < |nodes| ensures Linked(nodes, k) {
        if k > 0 { assert old(Linked(nodes, k - 1)); }
      }
    }

    /** `list_add_node_tail`. */
    method AddTail(value: T) returns (node: ListNode<T>)
      requires Valid()
      modifies this, nodes
      ensures Valid() && fresh(node) && nodes == old(nodes) + [node] && vals == old(vals) + [value]
    {
      node := new ListNode(value, null, null);
      if len == 0 {
        head, tail := node, node;
      } else {
        OnlyAt(|nodes| - 1);
        node.prev := tail;
        tail.next := node;
        tail := node;
      }
      len := len + 1;
      nodes, vals := nodes + [node], vals + [value];
      forall k | 0 <= k < |nodes| ensures Linked(nodes, k) {
        if k < |old(nodes)| { assert old(Linked(nodes, k)); }
      }
    }

    /** The `after` branch of `list_insert_node`. */
    method InsertAfter(old_node: ListNode<T>, value: T, ghost i: nat) returns (node: ListNode<T>)
      requires Valid() && i < |nodes| && nodes[i] == old_node
      modifies this, nodes
      ensures Valid() && fresh(node)
      ensures nodes == old(nodes[..i + 1] + [node] + nodes[i + 1..])
      ensures vals == old(vals[..i + 1]) + [value] + old(vals[i + 1..])
    {
      assert Linked(nodes, i);
      OnlyAt(i);
      OnlyAt(i + 1);
      node := new ListNode(value, old_node, old_node.next);
      if tail == old_node { tail := node; }
      old_node.next := node;
      if node.next != null { node.next.prev := node; }
      len := len + 1;
      nodes, vals := nodes[..i + 1] + [node] + nodes[i + 1..], vals[..i + 1] + [value] + vals[i + 1..];
      forall j | 0 <= j < |nodes| ensures Linked(nodes, j) {
        if j <= i { assert old(Linked(nodes, j)); }
        if j > i + 1 { assert old(Linked(nodes, j - 1)); }
      }
    }

    /** The other branch. */
    method InsertBefore(old_node: ListNode<T>, value: T, ghost i: nat) returns (node: ListNode<T>)
      requires Valid() && i < |nodes| && nodes[i] == old_node
      modifies this, nodes
      ensures Valid() && fresh(node)
      ensures nodes == old(nodes[..i] + [node] + nodes[i..]) && vals == old(vals[..i]) + [value] + old(vals[i..])
    {
      assert Linked(nodes, i);
      OnlyAt(i);
      OnlyAt(i - 1);
      node := new ListNode(value, old_node.prev, old_node);
      if head == old_node { head := node; }
      if node.prev != null { node.prev.next := node; }
      old_node.prev := node;
      len := len + 1;
      nodes, vals := nodes[..i] + [node] + nodes[i..], vals[..i] + [value] + vals[i..];
      forall j | 0 <= j < |nodes| ensures Linked(nodes, j) {
        if j < i { assert old(Linked(nodes, j)); }
        if j > i { assert old(Linked(nodes, j - 1)); }
      }
    }

    /** `list_insert_node`: before or after node `i`. */
    method Insert(old_node: ListNode<T>, value: T, after: bool, ghost i: nat) returns (node: ListNode<T>)
      requires Valid() && i < |nodes| && nodes[i] == old_node
      modifies this, nodes
      ensures Valid() && fresh(node)
      ensures var k := if after then i + 1 else i;
        nodes == old(nodes[..k] + [node] + nodes[k..]) && vals == old(vals[..k]) + [value] + old(vals[k..])
    {
      if after {
        node := InsertAfter(old_node, value, i);
      } else {
        node := InsertBefore(old_node, value, i);
      }
    }

    /** `list_del_node`. */
    method Delete(node: ListNode<T>, ghost i: nat)
      requires Valid() && i < |nodes| && nodes[i] == node
      modifies this, nodes
      ensures Valid()
      ensures nodes == old(nodes[..i] + nodes[i + 1..]) && vals == old(vals[..i] + vals[i + 1..])
    {
      assert Linked(nodes, i);
      OnlyAt(i - 1);
      OnlyAt(i + 1);
      if node.prev != null { node.prev.next := node.next; } else { head := node.next; }
      if node.next != null { node.next.prev := node.prev; } else { tail := node.prev; }
      len := len - 1;
      nodes, vals := nodes[..i] + nodes[i + 1..], vals[..i] + vals[i + 1..];
      forall j | 0 <= j < |nodes| ensures Linked(nodes, j) {
        assert old(Linked(nodes, if j < i then j else j + 1));
      }
    }

    /** `list_index`: from the head for `index >= 0`, from the tail (-1 is the last) otherwise. */
    method Index(index: int) returns (n: ListNode?<T>)
      requires Valid()
      ensures n == NodeAt(nodes, if index < 0 then |nodes| + index else index)
    {
      if index < 0 {
        var left := -index - 1;
        n := tail;
        ghost var at := |nodes| - 1;
        while left != 0 && n != null
          invariant 0 <= left && n == NodeAt(nodes, at)
          invariant at >= 0 ==> at - left == |nodes| + index
          invariant at < 0 ==> |nodes| + index < 0
          decreases left
        {
          assert Linked(nodes, at);
          left, n, at := left - 1, n.prev, at - 1;
        }
      } else {
        var left := index;
        n := head;
        ghost var at := 0;
        while left != 0 && n != null
          invariant 0 <= left && 0 <= at && n == NodeAt(nodes, at) && at + left == index
          decreases left
        {
          assert Linked(nodes, at);
          left, n, at := left - 1, n.next, at + 1;
        }
      }
    }

    /** `list_rotate`: the tail node becomes the head. */
    method Rotate()
      requires Valid()
      modifies this, nodes
      ensures Valid()
      ensures |old(nodes)| <= 1 ==> nodes == old(nodes) && vals == old(vals)
      ensures |old(nodes)| > 1 ==> var k := |old(nodes)| - 1;
        nodes == [old(nodes)[k]] + old(nodes)[..k] && vals == [old(vals)[k]] + old(vals)[..k]
    {
      var t := tail;
      if len <= 1 { return; }
      ghost var k := |nodes| - 1;
      assert Linked(nodes, k) && Linked(nodes, 0) && Linked(nodes, k - 1);
      OnlyAt(0);
      OnlyAt(k);
      OnlyAt(k - 1);
      tail := t.prev;
      tail.next := null;
      head.prev := t;
      t.prev := null;
      t.next := head;
      head := t;
      nodes, vals := [nodes[k]] + nodes[..k], [vals[k]] + vals[..k];
      forall j | 0 <= j < |nodes| ensures Linked(nodes, j) {
        if j > 0 { assert old(Linked(nodes, j - 1)); }
      }
    }
  }

  /** `list_iter`. */
  class ListIter<T> {
    var next: ListNode?<T>
    const fromHead: bool

    /** `list_get_iterator`. */
    constructor (list: DList<T>, fromHead: bool)
      requires list.Valid()
      ensures this.fromHead == fromHead
      ensures At(list.nodes, if fromHead then 0 else |list.nodes| - 1)
    {
      this.fromHead := fromHead;
      next := if fromHead then list.head else list.tail;
    }

    /** The next node to return is number `i`. */
    ghost predicate At(nodes: seq<ListNode<T>>, i: int)
      reads this
    {
      next == NodeAt(nodes, i)
    }

    /** `list_next`. */
    method Next(ghost list: DList<T>, ghost i: int) returns (current: ListNode?<T>)
      requires list.Valid() && At(list.nodes, i)
      modifies this
      ensures list.Valid() && unchanged(list) && current == NodeAt(list.nodes, i)
      ensures current != null ==> At(list.nodes, if fromHead then i + 1 else i - 1)
      ensures current == null ==> next == null
    {
      current := next;
      if current != null {
        assert Linked(list.nodes, i);
        next := if fromHead then current.next else current.prev;
      }
    }
  }

  function Filter<T>(s: seq<T>, keep: T -> bool): seq<T> {
    if s == [] then [] else (if keep(s[0]) then [s[0]] else []) + Filter(s[1..], keep)
  }

  lemma {:induction false} FilterSnoc<T>(s: seq<T>, x: T, keep: T -> bool)
    ensures Filter(s + [x], keep) == Filter(s, keep) + (if keep(x) then [x] else [])
  {
    if s != [] {
      assert (s + [x])[1..] == s[1..] + [x];
      FilterSnoc(s[1..], x, keep);
    }
  }

  /** Half way through: `visited` came before element `i` of what is left, and kept its keepers. */
  ghost predicate Halfway<T>(all: seq<T>, vals: seq<T>, i: nat, visited: seq<T>, keep: T -> bool) {
    i <= |vals| && visited + vals[i..] == all && vals[..i] == Filter(visited, keep)
  }

  lemma VisitedOne<T>(all: seq<T>, vals: seq<T>, i: nat, visited: seq<T>, keep: T -> bool)
    requires Halfway(all, vals, i, visited, keep) && i < |vals|
    ensures var v := vals[i];
      if keep(v) then Halfway(all, vals, i + 1, visited + [v], keep)
      else Halfway(all, vals[..i] + vals[i + 1..], i, visited + [v], keep)
  {
    var v := vals[i];
    FilterSnoc(visited, v, keep);
    assert visited + vals[i..] == visited + [v] + vals[i + 1..];
    assert (vals[..i] + vals[i + 1..])[i..] == vals[i + 1..] && (vals[..i] + vals[i + 1..])[..i] == vals[..i];
    assert vals[..i + 1] == vals[..i] + [v];
  }

  /** An iteration from the head has just returned `n`, node `i`, or NULL at the end. */
  ghost predicate Standing<T>(list: DList<T>, it: ListIter<T>, n: ListNode?<T>, i: nat)
    reads list, list.nodes, it
  {
    && list.Valid() && it.fromHead && i <= |list.nodes| && n == NodeAt(list.nodes, i)
    && (n != null ==> it.At(list.nodes, i + 1))
  }

  /** Every node of the list is one of `all`. */
  ghost predicate Within<T>(nodes: seq<ListNode<T>>, all: set<ListNode<T>>) {
    forall k :: 0 <= k < |nodes| ==> nodes[k] in all
  }

  /** The body of such an iteration: `list_del_node` on the node just returned, or not, and `list_next`. */
  method KeepOrDelete<T>(list: DList<T>, it: ListIter<T>, n: ListNode<T>, keep: bool, ghost i: nat,
                         ghost all: set<ListNode<T>>)
    returns (next: ListNode?<T>)
    requires Standing(list, it, n, i) && Within(list.nodes, all)
    modifies list, all, it
    ensures Standing(list, it, next, if keep then i + 1 else i) && Within(list.nodes, all)
    ensures list.nodes == if keep then old(list.nodes) else old(list.nodes[..i] + list.nodes[i + 1..])
    ensures list.vals == if keep then old(list.vals) else old(list.vals[..i] + list.vals[i + 1..])
  {
    if !keep { list.Delete(n, i); }
    next := it.Next(list, if keep then i + 1 else i);
  }

  /**
   * The pattern the scheduler uses: iterate from the head and delete some of the nodes as they are
   * returned. Every original element is visited exactly once, in order, and the others remain.
   */
  method VisitDeleting<T>(list: DList<T>, keep: T -> bool) returns (visited: seq<T>)
    requires list.Valid()
    modifies list, list.nodes
    ensures list.Valid() && visited == old(list.vals) && list.vals == Filter(old(list.vals), keep)
  {
    var it := new ListIter(list, true);
    visited := [];
    ghost var i := 0;
    ghost var all := set x | x in list.nodes;
    var n := it.Next(list, 0);
    while n != null
      invariant Standing(list, it, n, i) && fresh(it) && Within(list.nodes, all)
      invariant Halfway(old(list.vals), list.vals, i, visited, keep)
      decreases |list.vals| - i
    {
      var v := n.value;
      var k := keep(v);
      VisitedOne(old(list.vals), list.vals, i, visited, keep);
      n := KeepOrDelete(list, it, n, k, i, all);
      visited := visited + [v];
      if k { i := i + 1; }
    }
    assert list.vals[i..] == [] && list.vals[..i] == list.vals;
  }
}
