/** The intrusive list `state_list` of live connections, as `ctcp_init` and `ctcp_destroy` of `ctcp.c` relink it. */
module StateLists {
  import opened Bytes

  /** What a `prev` pointer addresses: the variable `state_list`, or the `next` field of a node. */
  datatype Link = ListHead | NextOf(node: StateNode)

  /** The links of a `ctcp_state`. */
  class StateNode {
    var next: StateNode?
    var prev: Link
    /** How many connections were set up before this one. */
    ghost const serial: nat

    constructor (ghost serial: nat)
      ensures this.serial == serial
    {
      this.serial := serial;
      next, prev := null, ListHead;
    }
  }

  function At(s: seq<StateNode>, i: nat): StateNode? {
    if i < |s| then s[i] else null
  }

  /** The link that points at position `i`. */
  function LinkTo(s: seq<StateNode>, i: nat): Link
    requires i <= |s|
  {
    if i == 0 then ListHead else NextOf(s[i - 1])
  }

  /** Every `next` points at the node that follows, and every `prev` addresses the link that points at its node. */
  ghost predicate Linked(s: seq<StateNode>)
    reads s
  {
    && (forall i {:trigger s[i].next} :: 0 <= i < |s| ==> s[i].next == At(s, i + 1))
    && (forall i {:trigger s[i].prev} :: 0 <= i < |s| ==> s[i].prev == LinkTo(s, i))
  }

  /** Newer connections come first. */
  ghost predicate NewestFirst(s: seq<StateNode>, created: nat) {
    && (forall i :: 0 <= i < |s| ==> s[i].serial < created)
    && (forall i, j :: 0 <= i < j < |s| ==> s[i].serial > s[j].serial)
  }

  /** `Linked`, but for the node at position `k`, which its neighbours bypass. */
  ghost predicate Bypassed(s: seq<StateNode>, k: nat)
    requires k < |s|
    reads s
  {
    && (forall i {:trigger s[i].next} :: 0 <= i < |s| && i != k ==> s[i].next == At(s, if i + 1 == k then k + 1 else i + 1))
    && (forall i {:trigger s[i].prev} :: 0 <= i < |s| && i != k ==> s[i].prev == LinkTo(s, if i == k + 1 then k else i))
  }

  lemma BypassedIsLinked(s: seq<StateNode>, k: nat)
    requires k < |s| && Bypassed(s, k)
    ensures Linked(Removed(s, k))
  {
    var t := Removed(s, k);
    forall i | 0 <= i < |t|
      ensures t[i].next == At(t, i + 1) && t[i].prev == LinkTo(t, i)
    {
      var j := if i < k then i else i + 1;
      assert t[i] == s[j];
    }
  }

  class StateList {
    var first: StateNode?
    /** The live connections in list order, and how many were ever set up. */
    ghost var nodes: seq<StateNode>
    ghost var created: nat

    ghost predicate Valid()
      reads this, nodes
    {
      first == At(nodes, 0) && Linked(nodes) && NewestFirst(nodes, created)
    }

    constructor ()
      ensures Valid() && nodes == [] && created == 0
    {
      first := null;
      nodes, created := [], 0;
    }

    /** The list part of `ctcp_init`. */
    method Init() returns (state: StateNode)
      requires Valid()
      modifies this, nodes
      ensures Valid() && fresh(state) && state.serial == old(created)
      ensures nodes == [state] + old(nodes) && created == old(created) + 1
    {
      state := new StateNode(created);
      state.next := first;
      state.prev := ListHead;
      if first != null {
        first.prev := NextOf(state);
      }
      first := state;
      nodes, created := [state] + nodes, created + 1;
    }

    /** The two assignments of `ctcp_destroy` that take a node out of the list. */
    method Bypass(state: StateNode, ghost k: nat)
      requires k < |nodes| && nodes[k] == state && first == At(nodes, 0) && Linked(nodes)
      requires forall i, j :: 0 <= i < j < |nodes| ==> nodes[i] != nodes[j]
      modifies this`first, nodes
      ensures Bypassed(nodes, k) && first == At(nodes, if k == 0 then 1 else 0)
    {
      assert state.next == At(nodes, k + 1) && state.prev == LinkTo(nodes, k);
      if state.next != null {
        state.next.prev := state.prev;
      }
      match state.prev {
        case ListHead => first := state.next;
        case NextOf(p) => p.next := state.next;
      }
    }

    /** The list part of `ctcp_destroy`, for a connection at position `k` of the list. */
    method Destroy(state: StateNode, ghost k: nat)
      requires Valid() && k < |nodes| && nodes[k] == state
      modifies this, nodes
      ensures Valid() && nodes == Removed(old(nodes), k) && created == old(created) && state !in nodes
    {
      hide Linked, Bypassed;
      ghost var was := nodes;
      Bypass(state, k);
      BypassedIsLinked(was, k);
      nodes := Removed(was, k);
      assert forall i :: 0 <= i < |nodes| ==> nodes[i] == was[if i < k then i else i + 1];
    }
  }
}
