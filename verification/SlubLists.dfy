/** The two lists of a size class as the linked lists they are. */
module SlubLists {
  import opened IntrusiveList
  import opened Sequences
  import opened Slab
  import opened SlubAllocator

  /** The list's nodes are the blocks' descriptors, in order. */
  ghost predicate Represents(list: ListBase, blocks: seq<SlubBlock>, node: SlubBlock -> Node)
    reads list
  {
    |list.nodes| == |blocks| && forall i :: 0 <= i < |blocks| ==> list.nodes[i] == node(blocks[i])
  }

  /** Different blocks have different descriptors. */
  ghost predicate Distinct(bs: set<SlubBlock>, node: SlubBlock -> Node) {
    forall b, c :: b in bs && c in bs && b != c ==> node(b) != node(c)
  }

  /** The two failures of freeing a cell of an exhausted block, on the links: `pop_node` on the full
      list joins through a null back link exactly when the outcome is NullLink, and removes the last of
      three or more nodes exactly when it is ListBroken. */
  lemma FailuresOnTheLinks(c: SizeClass, block: SlubBlock, partialList: ListBase, fullList: ListBase, node: SlubBlock -> Node)
    requires c.MemoryOk() && block in c.Blocks() && block.chain == []
    requires partialList.Valid() && fullList.Valid() && Distinct(c.Blocks(), node)
    requires Represents(partialList, c.partial, node) && Represents(fullList, c.full, node)
    ensures c.Outcome(block) == NullLink <==> fullList.BranchOf(node(block)) == Between(null, node(block).next)
    ensures c.Outcome(block) == ListBroken <==> node(block) in fullList.nodes && !ExactRemoval(fullList.nodes, node(block))
  {
    if block in c.full {
      var k :| 0 <= k < |c.full| && c.full[k] == block;
      fullList.OwnNode(k);
    } else {
      assert block == c.partial[0] by {
        var i :| 0 <= i < |c.partial| && c.partial[i] == block;
      }
      forall i | 0 <= i < |c.full|
        ensures fullList.nodes[i] != node(block)
      {
        assert c.full[i] in c.Blocks();
      }
      fullList.FrontOfAnother(partialList);
    }
  }
}
