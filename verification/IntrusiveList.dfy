/** The intrusive doubly linked list under every queue of the kernel, on the heap. The ghost
    sequence `nodes` is what the links should spell out; `Valid` says that they do. */
module IntrusiveList {
  import opened Sequences

  class Node {
    var next: Node?
    var prev: Node?

    constructor ()
      ensures next == null && prev == null
    {
      next, prev := null, null;
    }
  }

  /** Links `back` and `after` to each other. */
  method JoinList(back: Node, after: Node)
    modifies back`next, after`prev
    ensures back.next == after && after.prev == back
  {
    back.next := after;
    after.prev := back;
  }

  /** What `pop_node` does with a node: it is the head, it is the tail, or its neighbours are joined
      through its own links. */
  datatype Removal = Front | Back | Between(prev: Node?, next: Node?)

  class ListBase {
    var head: Node?
    var tail: Node?
    ghost var nodes: seq<Node>

    /** The nodes are distinct, neighbours point at each other and both ends at nothing. */
    ghost predicate Linked(ns: seq<Node>)
      reads ns
    {
      && NoDup(ns)
      && (forall i, j :: 0 <= i < j < |ns| && j == i + 1 ==> ns[i].next == ns[j] && ns[j].prev == ns[i])
      && (|ns| > 0 ==> ns[0].prev == null && ns[|ns| - 1].next == null)
    }

    ghost predicate Spells(ns: seq<Node>)
      reads this, ns
    {
      && Linked(ns)
      && head == (if |ns| == 0 then null else ns[0])
      && tail == (if |ns| == 0 then null else ns[|ns| - 1])
    }

    ghost predicate Valid()
      reads this, nodes
    {
      Spells(nodes)
    }

    constructor ()
      ensures Valid() && nodes == []
    {
      head, tail, nodes := null, null, [];
    }

    predicate Empty()
      reads this
    {
      head == null
    }

    /** Also true of the empty list. */
    predicate Orphan()
      reads this
    {
      tail == head
    }

    method PushFrontNode(obj: Node)
      requires Valid() && obj !in nodes
      modifies this, obj, if head == null then {} else {head}
      ensures Valid() && nodes == [obj] + old(nodes)
    {
      if Empty() {
        head, tail := obj, obj;
        obj.next := null;
        obj.prev := null;
      } else {
        JoinList(obj, head);
        head := obj;
        head.prev := null;
      }
      nodes := [obj] + nodes;
    }

    method PushBackNode(obj: Node)
      requires Valid() && obj !in nodes
      modifies this, obj, if tail == null then {} else {tail}
      ensures Valid() && nodes == old(nodes) + [obj]
    {
      if Empty() {
        head, tail := obj, obj;
        obj.next := null;
        obj.prev := null;
      } else {
        JoinList(tail, obj);
        tail := obj;
        tail.next := null;
      }
      nodes := nodes + [obj];
    }

    /** On the empty list this does nothing. The node that leaves keeps a null back link. */
    method PopFrontNode()
      requires Valid()
      modifies this, if |nodes| <= 1 then {} else {nodes[1]}
      ensures Valid() && nodes == if old(nodes) == [] then [] else old(nodes)[1..]
      ensures old(nodes) != [] ==> old(nodes)[0].prev == null
    {
      if !Empty() && !Orphan() {
        assert nodes[0].next == nodes[1];
        head := head.next;
        head.prev := null;
        nodes := nodes[1..];
      } else {
        head, tail := null, null;
        nodes := [];
      }
    }

    /** As written, this clears the forward link of the head instead of the new tail: the links
        spell out the shorter list exactly when at most two nodes were there. */
    method PopBackNode()
      requires Valid()
      modifies this, if |nodes| <= 1 then {} else {nodes[0]}
      ensures nodes == if old(nodes) == [] then [] else old(nodes)[..|old(nodes)| - 1]
      ensures Valid() <==> |old(nodes)| <= 2
      ensures |old(nodes)| > 2 ==>
                && head == old(head) && tail == nodes[|nodes| - 1]
                && head.next == null && head.prev == null && tail.next == old(tail)
      ensures |old(nodes)| > 2 ==> forall ns: seq<Node> :: !Spells(ns)
    {
      if !Empty() && !Orphan() {
        assert nodes[|nodes| - 2].next == tail;
        tail := tail.prev;
        head.next := null;
        nodes := nodes[..|nodes| - 1];
        assert |nodes| > 1 ==> nodes[0].next != nodes[1];
      } else {
        head, tail := null, null;
        nodes := [];
      }
    }

    function BranchOf(obj: Node): Removal
      reads this, obj
    {
      if obj == head then Front else if obj == tail then Back else Between(obj.prev, obj.next)
    }

    /** A node of the list is never joined through a null link. */
    lemma OwnNode(k: nat)
      requires Valid() && k < |nodes|
      ensures BranchOf(nodes[k]).Between? ==> BranchOf(nodes[k]).prev != null && BranchOf(nodes[k]).next != null
    {
      if 0 < k < |nodes| - 1 {
        assert nodes[k].prev == nodes[k - 1] && nodes[k].next == nodes[k + 1];
      }
    }

    /** The first node of another list is: it is neither head nor tail here, and its back link is null. */
    lemma FrontOfAnother(other: ListBase)
      requires Valid() && other.Valid() && other.nodes != [] && other.nodes[0] !in nodes
      ensures BranchOf(other.nodes[0]) == Between(null, other.nodes[0].next)
    {
    }

    /** Removes a node, at position `k` say. The links spell the shorter list exactly when the node
        was not the last of three or more; in that case they spell no list at all. */
    method PopNode(obj: Node, ghost k: nat)
      requires Valid() && k < |nodes| && nodes[k] == obj
      modifies this, set i | 0 <= i < |nodes| && (i == 0 || i == k - 1 || i == k + 1) :: nodes[i]
      ensures nodes == Without(old(nodes), obj)
      ensures Valid() <==> ExactRemoval(old(nodes), obj)
      ensures !ExactRemoval(old(nodes), obj) ==> forall ns: seq<Node> :: !Spells(ns)
    {
      ghost var was := nodes;
      WithoutAt(was, k);
      if obj == head {
        PopFrontNode();
        assert k == 0;
      } else if obj == tail {
        PopBackNode();
        assert k == |was| - 1;
        assert was[..k] + was[k + 1..] == was[..k];
      } else {
        assert was[k - 1].next == obj && obj.next == was[k + 1];
        JoinList(obj.prev, obj.next);
        nodes := nodes[..k] + nodes[k + 1..];
      }
    }
  }
}
