/** The doubly linked list of `ctcp_linked_list.c`, as a refinement of sequences of nodes. */
module LinkedLists {
  import opened Bytes

  /** `ll_node_t`. */
  class LlNode {
    var next: LlNode?
    var prev: LlNode?
    const obj: object

    /** `ll_create_node`. */
    constructor (obj: object)
      ensures next == null && prev == null && this.obj == obj
    {
      next, prev := null, null;
      this.obj := obj;
    }
  }

  function Inserted<T>(s: seq<T>, k: nat, x: T): seq<T>
    requires k <= |s|
  {
    s[..k] + [x] + s[k..]
  }

  /** Removing what was just inserted restores the sequence. */
  lemma InsertThenRemove<T>(s: seq<T>, k: nat, x: T)
    requires k <= |s|
    ensures Removed(Inserted(s, k, x), k) == s
  {
    var t := Inserted(s, k, x);
    assert t[..k] == s[..k] && t[k + 1..] == s[k..];
  }

  /** Forward and backward links are inverse, and no node occurs twice. */
  ghost predicate Chained(s: seq<LlNode>)
    reads s
  {
    && (forall i, j :: 0 <= i < j < |s| ==> s[i] != s[j])
    && (forall i {:trigger s[i].next} :: 0 <= i < |s| - 1 ==> s[i].next == s[i + 1])
    && (forall i {:trigger s[i].prev} :: 1 <= i < |s| ==> s[i].prev == s[i - 1])
    && (s != [] ==> s[0].prev == null && s[|s| - 1].next == null)
  }

  /** `length++` and `length--` on 32 bits. */
  lemma LengthCounts(n: nat)
    ensures U32(U32(n) + 1) == U32(n + 1)
    ensures n > 0 ==> U32(U32(n) - 1) == U32(n - 1)
  {
  }

  /** The links of `ll_add_after`. */
  method ChainAfter(node: LlNode, n: LlNode, ghost s: seq<LlNode>, ghost k: nat)
    requires Chained(s) && k < |s| && s[k] == node && n !in s
    modifies s, n
    ensures Chained(Inserted(s, k + 1, n))
  {
    assert node.next == if k + 1 < |s| then s[k + 1] else null;
    n.prev := node;
    n.next := node.next;
    if node.next != null {
      node.next.prev := n;
    }
    node.next := n;
    ghost var t := Inserted(s, k + 1, n);
    forall i | 0 <= i < |s|
      ensures t[i].next == t[i + 1] && t[i + 1].prev == t[i]
    {
      assert i > k + 1 ==> s[i - 1].next == s[i] && s[i].prev == s[i - 1];
    }
  }

  /** `linked_list_t`. */
  class LinkedList {
    var head: LlNode?
    var tail: LlNode?
    var length: u32
    ghost var nodes: seq<LlNode>

    /** The links join the nodes, and head, tail and length are right. */
    ghost predicate Valid()
      reads this, nodes
    {
      && Chained(nodes)
      && head == (if nodes == [] then null else nodes[0])
      && tail == (if nodes == [] then null else nodes[|nodes| - 1])
      && length == U32(|nodes|)
    }

    /** `ll_create`. */
    constructor ()
      ensures Valid() && nodes == []
    {
      head, tail, length := null, null, 0;
      nodes := [];
    }

    /** `ll_add`, once its arguments are there. */
    method Append(n: LlNode)
      requires Valid() && n !in nodes && n.next == null && n.prev == null
      modifies this, nodes, n
      ensures Valid() && nodes == old(nodes) + [n]
    {
      hide U32;
      LengthCounts(|nodes|);
      if head == null {
        head := n;
        tail := n;
      } else {
        tail.next := n;
        n.prev := tail;
        tail := n;
      }
      length := U32(length + 1);
      nodes := nodes + [n];
    }

    /** `ll_add_front`, once its arguments are there. */
    method Prepend(n: LlNode)
      requires Valid() && n !in nodes && n.next == null && n.prev == null
      modifies this, nodes, n
      ensures Valid() && nodes == [n] + old(nodes)
    {
      hide U32;
      LengthCounts(|nodes|);
      if head == null {
        head := n;
        tail := n;
      } else {
        n.next := head;
        head.prev := n;
        head := n;
      }
      length := U32(length + 1);
      nodes := [n] + nodes;
    }

    /** `ll_add_after`, once its arguments are there. */
    method Insert(node: LlNode, n: LlNode, ghost k: nat)
      requires Valid() && k < |nodes| && nodes[k] == node && n !in nodes
      modifies this, nodes, n
      ensures Valid() && nodes == Inserted(old(nodes), k + 1, n)
    {
      assert node == tail <==> k == |nodes| - 1;
      hide Chained, U32;
      LengthCounts(|nodes|);
      ChainAfter(node, n, nodes, k);
      if node == tail {
        tail := n;
      }
      length := U32(length + 1);
      nodes := Inserted(nodes, k + 1, n);
    }

    /** `ll_remove`, once its arguments are there. */
    method Unlink(node: LlNode, ghost k: nat)
      requires Valid() && k < |nodes| && nodes[k] == node
      modifies this, nodes
      ensures Valid() && nodes == Removed(old(nodes), k)
    {
      hide U32;
      LengthCounts(|nodes|);
      assert node.next == if k + 1 < |nodes| then nodes[k + 1] else null;
      assert node.prev == if k > 0 then nodes[k - 1] else null;
      if node == head {
        head := node.next;
      } else {
        node.prev.next := node.next;
      }
      if node == tail {
        tail := node.prev;
      } else {
        node.next.prev := node.prev;
      }
      length := U32(length - 1);
      ghost var was := nodes;
      nodes := Removed(was, k);
      forall i | 0 <= i < |nodes|
        ensures nodes[i] == was[if i < k then i else i + 1]
      {
      }
      forall i | 0 <= i < |nodes| - 1
        ensures nodes[i].next == nodes[i + 1] && nodes[i + 1].prev == nodes[i]
      {
        assert i >= k ==> was[i + 1].next == was[i + 2] && was[i + 2].prev == was[i + 1];
      }
      assert Chained(nodes);
      hide Chained;
    }
  }

  /** `ll_add`. */
  method Add(list: LinkedList?, obj: object?) returns (node: LlNode?)
    requires list != null ==> list.Valid()
    modifies list, if list == null then [] else list.nodes
    ensures node == null <==> list == null || obj == null
    ensures list != null ==> list.Valid()
    ensures list != null && obj == null ==> list.nodes == old(list.nodes)
    ensures node != null ==> fresh(node) && node.obj == obj && list.nodes == old(list.nodes) + [node]
  {
    hide LinkedList.Valid;
    if list == null || obj == null {
      return null;
    }
    var n := new LlNode(obj);
    list.Append(n);
    node := n;
  }

  /** `ll_add_front`. */
  method AddFront(list: LinkedList?, obj: object?) returns (node: LlNode?)
    requires list != null ==> list.Valid()
    modifies list, if list == null then [] else list.nodes
    ensures node == null <==> list == null || obj == null
    ensures list != null ==> list.Valid()
    ensures list != null && obj == null ==> list.nodes == old(list.nodes)
    ensures node != null ==> fresh(node) && node.obj == obj && list.nodes == [node] + old(list.nodes)
  {
    hide LinkedList.Valid;
    if list == null || obj == null {
      return null;
    }
    var n := new LlNode(obj);
    list.Prepend(n);
    node := n;
  }

  /** `ll_add_after`, for a node at position `k` of the list. */
  method AddAfter(list: LinkedList?, node: LlNode?, obj: object?, ghost k: nat) returns (added: LlNode?)
    requires list != null ==> list.Valid()
    requires list != null && node != null ==> k < |list.nodes| && list.nodes[k] == node
    modifies list, if list == null then [] else list.nodes
    ensures added == null <==> list == null || node == null || obj == null
    ensures list != null ==> list.Valid()
    ensures list != null && added == null ==> list.nodes == old(list.nodes)
    ensures added != null ==> fresh(added) && added.obj == obj && list.nodes == Inserted(old(list.nodes), k + 1, added)
  {
    hide LinkedList.Valid;
    if list == null || node == null || obj == null {
      return null;
    }
    var n := new LlNode(obj);
    list.Insert(node, n, k);
    added := n;
  }

  /** `ll_remove`, for a node at position `k` of the list. */
  method Remove(list: LinkedList?, node: LlNode?, ghost k: nat) returns (obj: object?)
    requires list != null ==> list.Valid()
    requires list != null && node != null ==> k < |list.nodes| && list.nodes[k] == node
    modifies list, if list == null then [] else list.nodes
    ensures obj == if list == null || node == null then null else node.obj
    ensures list != null ==> list.Valid()
    ensures list != null && node == null ==> list.nodes == old(list.nodes)
    ensures list != null && node != null ==> list.nodes == Removed(old(list.nodes), k)
  {
    hide LinkedList.Valid;
    if list == null || node == null {
      return null;
    }
    obj := node.obj;
    list.Unlink(node, k);
  }

  /** `ll_find`: the first node with the object, if there is one. */
  method Find(list: LinkedList?, obj: object?) returns (node: LlNode?)
    requires list != null ==> list.Valid()
    ensures list == null || obj == null ==> node == null
    ensures list != null && obj != null ==>
              if node == null then forall i :: 0 <= i < |list.nodes| ==> list.nodes[i].obj != obj
              else exists k :: 0 <= k < |list.nodes| && list.nodes[k] == node && node.obj == obj
                               && forall i :: 0 <= i < k ==> list.nodes[i].obj != obj
  {
    if list == null || obj == null {
      return null;
    }
    var curr := list.head;
    ghost var i := 0;
    while curr != null
      invariant 0 <= i <= |list.nodes|
      invariant curr == if i < |list.nodes| then list.nodes[i] else null
      invariant forall j :: 0 <= j < i ==> list.nodes[j].obj != obj
      decreases |list.nodes| - i
    {
      if curr.obj == obj {
        return curr;
      }
      curr := curr.next;
      i := i + 1;
    }
    return null;
  }

  /** A node that is inserted and removed again leaves the list as it was. */
  method AddAfterAndRemove(list: LinkedList, node: LlNode, obj: object, ghost k: nat)
    requires list.Valid() && k < |list.nodes| && list.nodes[k] == node
    modifies list, list.nodes
    ensures list.Valid() && list.nodes == old(list.nodes)
  {
    hide LinkedList.Valid;
    var added := AddAfter(list, node, obj, k);
    InsertThenRemove(old(list.nodes), k + 1, added);
    var removed := Remove(list, added, k + 1);
  }
}
