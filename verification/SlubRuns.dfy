/** Runs of one size class, from its start without blocks, after which freeing a cell goes wrong. */
module SlubRuns {
  import B = Buddy
  import opened BuddyAllocator
  import opened IntrusiveList
  import opened Slab
  import opened SlubAllocator
  import opened Wrappers

  /** Allocates until the only block of the partial list is exhausted. */
  method Exhaust(c: SizeClass, a: Allocator)
    requires c.Ok(a) && |c.partial| == 1
    modifies c, c.partial, a.pd, a.freelist, a.count
    ensures c.Ok(a) && c.partial == old(c.partial) && c.full == old(c.full) && c.FrontExhausted()
    ensures old(c.partial[0].live) <= c.partial[0].live
  {
    ghost var front := c.partial[0];
    while c.partial[0].freeOffset != CELL_NULL
      invariant c.Ok(a) && c.partial == [front] && c.full == old(c.full)
      invariant old(front.live) <= front.live
      decreases CELLS_PER_SLAB - |front.live|
    {
      c.FrontIsFreeIffLinked();
      CountLive(c, front);
      var b, obj, cell := c.Alloc(a);
      CountLive(c, front);
      assert |front.live + {cell}| == |front.live|;
    }
    c.FrontIsFreeIffLinked();
  }

  lemma CountLive(c: SizeClass, b: SlubBlock)
    requires c.MemoryOk() && b in c.partial
    ensures |b.live| + |b.chain| == CELLS_PER_SLAB
  {
    assert b in c.Blocks() && c.BlockOk(b);
    b.CellsAreConserved();
  }

  /** One more allocation opens a new block and retires the exhausted one, if there was one. */
  method OpenBlock(c: SizeClass, a: Allocator) returns (b: SlubBlock?, obj: Option<nat>, ghost cell: nat)
    requires c.Ok(a) && (c.partial == [] || (|c.partial| == 1 && c.FrontExhausted()))
    modifies c, c.partial, a.pd, a.freelist, a.count
    ensures c.Ok(a) && c.full == old(c.full) + old(c.partial) && c.KeepsOtherCells(b)
    ensures obj.Some? ==> b != null && fresh(b) && fresh(b.words) && c.partial == [b] && cell in b.live && obj.value == b.Offset(cell)
    ensures obj.None? ==> a.Model() == old(a.Model())
    ensures obj.None? <==> B.Allocate(old(a.Model()), c.index, B.Slab).1.None?
  {
    ghost var last := c.partial;
    assert last == [] || last == [last[0]];
    b, obj, cell := c.Alloc(a);
    if obj.Some? {
      assert b in c.partial && b !in c.full;
    }
  }

  /** Frees a cell of the exhausted block that is still on the partial list. */
  method FreeInExhausted(c: SizeClass, a: Allocator, b: SlubBlock, offset: nat, ghost cell: nat) returns (r: Freed)
    requires c.Ok(a) && c.partial == [b] && c.FrontExhausted() && cell in b.live && offset == b.Offset(cell)
    modifies c, b, b.words, a.pd, a.freelist, a.count
    ensures r == NullLink
  {
    assert b in c.partial && b in c.Blocks() && b !in c.full;
    r := c.Free(a, b, offset, cell);
  }

  /** The allocation that exhausts a block, and the return of one of its cells before the next
      allocation: the block is taken off a list it is not on, through a null link. */
  method FreeRightAfterExhausting(c: SizeClass, a: Allocator) returns (r: Option<Freed>)
    requires c.Ok(a) && c.partial == []
    modifies c, a.pd, a.freelist, a.count
    ensures r.None? <==> B.Allocate(old(a.Model()), c.index, B.Slab).1.None?
    ensures r.Some? ==> r.value == NullLink
  {
    var b, obj, cell := OpenBlock(c, a);
    if obj.None? {
      return None;
    }
    Exhaust(c, a);
    var outcome := FreeInExhausted(c, a, b, obj.value, cell);
    r := Some(outcome);
  }

  /** Exhausts the block in hand and opens the next one; the old one is retired, its cells still live. */
  method NextBlock(c: SizeClass, a: Allocator) returns (b: SlubBlock?, obj: Option<nat>, ghost cell: nat)
    requires c.Ok(a) && |c.partial| == 1
    modifies c, c.partial, a.pd, a.freelist, a.count
    ensures c.Ok(a) && c.full == old(c.full) + old(c.partial)
    ensures old(c.partial[0].live) <= old(c.partial[0]).live
    ensures obj.None? ==> B.Allocate(a.Model(), c.index, B.Slab).1.None?
    ensures obj.Some? ==> b != null && fresh(b) && fresh(b.words) && c.partial == [b] && cell in b.live && obj.value == b.Offset(cell)
  {
    ghost var front := c.partial[0];
    assert front in c.partial && front in c.Blocks();
    Exhaust(c, a);
    assert front in c.partial && front in c.Blocks();
    b, obj, cell := OpenBlock(c, a);
  }

  /** Uses up two blocks and opens the third. */
  method TwoRetired(c: SizeClass, a: Allocator) returns (b: SlubBlock?, obj: Option<nat>, ghost cell: nat)
    requires c.Ok(a) && c.partial == [] == c.full
    modifies c, a.pd, a.freelist, a.count
    ensures obj.None? ==> B.Valid(a.Model()) && B.Allocate(a.Model(), c.index, B.Slab).1.None?
    ensures obj.Some? ==> c.Ok(a) && |c.full| == 2
    ensures obj.Some? ==> b != null && fresh(b) && fresh(b.words) && c.partial == [b] && cell in b.live && obj.value == b.Offset(cell)
  {
    b, obj, cell := OpenBlock(c, a);
    if obj.Some? {
      b, obj, cell := NextBlock(c, a);
      if obj.Some? {
        b, obj, cell := NextBlock(c, a);
      }
    }
  }

  /** Frees a cell of the last block of three or more on the full list. */
  method FreeInLastRetired(c: SizeClass, a: Allocator, b: SlubBlock, offset: nat, ghost cell: nat) returns (r: Freed)
    requires c.Ok(a) && |c.full| >= 3 && b == c.full[|c.full| - 1] && cell in b.live && offset == b.Offset(cell)
    modifies c, b, b.words, a.pd, a.freelist, a.count
    ensures r == ListBroken
  {
    assert b in c.full && b in c.Blocks();
    r := c.Free(a, b, offset, cell);
  }

  /** Three blocks used up, and the return of a cell of the third one after it was retired: it is the
      last of three on the full list, which is left broken. None only when the page allocator runs out on the way. */
  method FreeInThirdRetired(c: SizeClass, a: Allocator) returns (r: Option<Freed>)
    requires c.Ok(a) && c.partial == [] == c.full
    modifies c, a.pd, a.freelist, a.count
    ensures r.None? ==> B.Valid(a.Model()) && B.Allocate(a.Model(), c.index, B.Slab).1.None?
    ensures r.Some? ==> r.value == ListBroken
  {
    var third, obj, cell := TwoRetired(c, a);
    if obj.None? {
      return None;
    }
    var b, next, nextCell := NextBlock(c, a);
    if next.None? {
      return None;
    }
    var outcome := FreeInLastRetired(c, a, third, obj.value, cell);
    r := Some(outcome);
  }

  // ---- a retired block never gives its pages back ----

  lemma UnlessAllLive(c: SizeClass, b: SlubBlock, k: nat)
    requires c.MemoryOk() && b in c.Blocks() && k < CELLS_PER_SLAB && k !in b.live
    ensures b.chain != []
  {
    assert c.BlockOk(b);
    assert k in b.chain;
  }

  lemma AllLive(c: SizeClass, b: SlubBlock)
    requires c.MemoryOk() && b in c.full
    ensures b in c.Blocks() && b.retired && forall k: nat :: k in b.live <==> k < CELLS_PER_SLAB
  {
    assert b in c.Blocks() && c.BlockOk(b);
  }

  /** The return of one cell of a retired block that is revived already, or will be by it. */
  method ReturnOne(c: SizeClass, a: Allocator, b: SlubBlock, k: nat)
    requires c.Ok(a) && b in c.Blocks() && b.retired && k in b.live
    requires b.chain != [] || (b in c.full && |c.full| < 3)
    modifies c`partial, c`full, b, b.words, a.pd, a.freelist, a.count
    ensures c.Ok(a) && b in c.Blocks() && b.retired && b.live == old(b.live) - {k} && a.Model() == old(a.Model())
  {
    var r := c.Free(a, b, b.Offset(k), k);
    assert r == Kept;
  }

  /** All cells of a retired block come back, and its pages are still a slab's. */
  method ReturnAll(c: SizeClass, a: Allocator, b: SlubBlock)
    requires c.Ok(a) && b in c.full && |c.full| < 3
    modifies c`partial, c`full, b, b.words, a.pd, a.freelist, a.count
    ensures c.Ok(a) && b in c.Blocks() && b.live == {} && HoldsPage(a.Model(), b.page, c.index)
  {
    AllLive(c, b);
    for k := 0 to CELLS_PER_SLAB
      invariant c.Ok(a) && b in c.Blocks() && b.retired
      invariant forall j: nat :: j in b.live <==> k <= j < CELLS_PER_SLAB
      invariant k == 0 ==> b in c.full && |c.full| < 3
    {
      if k > 0 {
        UnlessAllLive(c, b, 0);
      }
      ReturnOne(c, a, b, k);
    }
    assert b.live == {};
  }

  /** One block used up, the next one opened, and all 128 cells of the first returned: it holds no live
      cell and still its pages. None only when the page allocator runs out on the way. */
  method EmptyRetired(c: SizeClass, a: Allocator) returns (b: SlubBlock?)
    requires c.Ok(a) && c.partial == [] == c.full
    modifies c, a.pd, a.freelist, a.count
    ensures b == null ==> B.Valid(a.Model()) && B.Allocate(a.Model(), c.index, B.Slab).1.None?
    ensures b != null ==> c.Ok(a) && b in c.Blocks() && b.live == {} && HoldsPage(a.Model(), b.page, c.index)
  {
    var first, obj, cell := OpenBlock(c, a);
    if obj.None? {
      return null;
    }
    var next, obj2, cell2 := NextBlock(c, a);
    if obj2.None? {
      return null;
    }
    ReturnAll(c, a, first);
    b := first;
  }

  /** What a caller may do: ask for a cell, or return one of those it holds. */
  datatype Call = Allocate | Release(i: nat)

  /** The cells a caller holds: blocks, offsets and indices, no cell twice. */
  ghost predicate Owns(c: SizeClass, blocks: seq<SlubBlock>, offsets: seq<nat>, cells: seq<nat>)
    reads c, c.Blocks()
  {
    OwnsBut(c, blocks, offsets, cells, |blocks|)
  }

  /** The same but for the cell at position `gone`. */
  ghost predicate OwnsBut(c: SizeClass, blocks: seq<SlubBlock>, offsets: seq<nat>, cells: seq<nat>, gone: nat)
    reads c, c.Blocks()
  {
    && |blocks| == |offsets| == |cells|
    && (forall i {:trigger blocks[i]} :: 0 <= i < |blocks| && i != gone ==>
          blocks[i] in c.Blocks() && cells[i] in blocks[i].live && offsets[i] == blocks[i].Offset(cells[i]))
    && (forall i, j :: 0 <= i < j < |blocks| ==> blocks[i] != blocks[j] || cells[i] != cells[j])
  }

  function DropAt<T>(s: seq<T>, i: nat): seq<T>
    requires i < |s|
  {
    s[..i] + s[i + 1..]
  }

  lemma OwnsRest(c: SizeClass, blocks: seq<SlubBlock>, offsets: seq<nat>, cells: seq<nat>, i: nat)
    requires i < |blocks| && OwnsBut(c, blocks, offsets, cells, i)
    ensures Owns(c, DropAt(blocks, i), DropAt(offsets, i), DropAt(cells, i))
  {
    forall j | 0 <= j < |blocks| - 1
      ensures DropAt(blocks, i)[j] == blocks[if j < i then j else j + 1]
      ensures DropAt(offsets, i)[j] == offsets[if j < i then j else j + 1]
      ensures DropAt(cells, i)[j] == cells[if j < i then j else j + 1]
    {
    }
  }

  /** An allocation: no live cell is lost and the one handed out was not live. */
  method AllocStep(c: SizeClass, a: Allocator) returns (b: SlubBlock?, obj: Option<nat>, ghost cell: nat)
    requires c.Ok(a)
    modifies c, c.partial, a.pd, a.freelist, a.count
    ensures c.Ok(a) && c.KeepsRetired()
    ensures forall x :: x in old(c.Blocks()) ==> x in c.Blocks() && old(x.live) <= x.live
    ensures forall x :: x in c.Blocks() ==> x in old(c.Blocks()) || (fresh(x) && fresh(x.words))
    ensures obj.Some? ==> b != null && b in c.Blocks() && cell in b.live && obj.value == b.Offset(cell)
    ensures obj.Some? && b in old(c.Blocks()) ==> cell !in old(b.live)
  {
    b, obj, cell := c.Alloc(a);
    if obj.Some? {
      assert b in c.partial;
    }
  }

  /** The return of a cell: no other one is lost. It fails when a list is broken. */
  method FreeStep(c: SizeClass, a: Allocator, block: SlubBlock, offset: nat, ghost cell: nat) returns (ok: bool)
    requires c.Ok(a) && block in c.Blocks() && cell in block.live && offset == block.Offset(cell)
    modifies c`partial, c`full, block, block.words, a.pd, a.freelist, a.count
    ensures c.KeepsRetired()
    ensures ok ==> c.Ok(a) && c.Blocks() <= old(c.Blocks()) && block.live == old(block.live) - {cell}
    ensures ok ==> forall x :: x in old(c.Blocks()) && x.live != {} ==> x in c.Blocks()
    ensures ok ==> forall x :: x in old(c.Blocks()) && x != block ==> x.live == old(x.live)
  {
    var r := c.Free(a, block, offset, cell);
    ok := r == Kept || r == SlabReturned;
  }

  method PerformAlloc(c: SizeClass, a: Allocator, blocks0: seq<SlubBlock>, offsets0: seq<nat>, ghost cells0: seq<nat>)
    returns (blocks: seq<SlubBlock>, offsets: seq<nat>, ghost cells: seq<nat>)
    requires c.Ok(a) && Owns(c, blocks0, offsets0, cells0)
    modifies c, c.partial, a.pd, a.freelist, a.count
    ensures c.Ok(a) && c.KeepsRetired() && Owns(c, blocks, offsets, cells)
    ensures forall x :: x in c.Blocks() ==> x in old(c.Blocks()) || (fresh(x) && fresh(x.words))
  {
    blocks, offsets, cells := blocks0, offsets0, cells0;
    var b, obj, cell := AllocStep(c, a);
    if obj.Some? {
      blocks, offsets, cells := blocks + [b], offsets + [obj.value], cells + [cell];
    }
  }

  method PerformFree(c: SizeClass, a: Allocator, i: nat, blocks0: seq<SlubBlock>, offsets0: seq<nat>, ghost cells0: seq<nat>)
    returns (ok: bool, blocks: seq<SlubBlock>, offsets: seq<nat>, ghost cells: seq<nat>)
    requires c.Ok(a) && Owns(c, blocks0, offsets0, cells0) && i < |blocks0|
    modifies c`partial, c`full, blocks0[i], blocks0[i].words, a.pd, a.freelist, a.count
    ensures c.KeepsRetired()
    ensures ok ==> c.Ok(a) && c.Blocks() <= old(c.Blocks()) && Owns(c, blocks, offsets, cells)
  {
    ok := FreeStep(c, a, blocks0[i], offsets0[i], cells0[i]);
    blocks, offsets, cells := DropAt(blocks0, i), DropAt(offsets0, i), DropAt(cells0, i);
    if ok {
      OwnsRest(c, blocks0, offsets0, cells0, i);
    }
  }

  /** Calls in any order, by a caller that returns only cells it holds, each once: a retired block is
      still there at the end, retired, and its pages are a slab's. The run ends early when a call
      breaks a list. */
  method Perform(c: SizeClass, a: Allocator, calls: seq<Call>, blocks: seq<SlubBlock>, offsets: seq<nat>, ghost cells: seq<nat>)
    returns (ok: bool)
    requires c.Ok(a) && Owns(c, blocks, offsets, cells)
    modifies c, c.Blocks(), (set b | b in c.Blocks() :: b.words), a.pd, a.freelist, a.count
    ensures c.KeepsRetired()
    ensures ok ==> c.Ok(a) && forall x :: x in old(c.Blocks()) && old(x.retired) ==> HoldsPage(a.Model(), x.page, c.index)
    decreases |calls|
  {
    ok := true;
    if calls == [] {
      return;
    }
    var blocks1, offsets1 := blocks, offsets;
    ghost var cells1 := cells;
    match calls[0] {
      case Allocate =>
        blocks1, offsets1, cells1 := PerformAlloc(c, a, blocks, offsets, cells);
      case Release(i) =>
        if i < |blocks| {
          ok, blocks1, offsets1, cells1 := PerformFree(c, a, i, blocks, offsets, cells);
        }
    }
    if ok {
      ok := Perform(c, a, calls[1..], blocks1, offsets1, cells1);
    }
  }

  // ---- the descriptor a slab starts with ----

  /** The bits that a back link leaves in a descriptor, given where nodes are. */
  function LinkBits(node: Node?, address: Node -> nat): nat {
    if node == null then 0 else address(node)
  }

  /** A descriptor popped from the front of a free list and seen as a slab block reads zero in
      `in_use` and `free_offset`: both lie where its back link, then null, was. */
  method SlabFromFreeList(list: ListBase, address: Node -> nat, page: nat, cellWords: nat, cells: nat, words: array<nat>)
    returns (b: SlubBlock)
    requires list.Valid() && list.nodes != []
    modifies list, list.nodes
    ensures list.Valid() && list.nodes == old(list.nodes)[1..]
    ensures b.freeOffset == 0 && b.inUse == 0 && b.page == page && b.cellWords == cellWords && b.cells == cells && b.words == words
  {
    var node := list.head;
    list.PopFrontNode();
    assert node == old(list.nodes)[0];
    b := new SlubBlock(page, cellWords, cells, words, LinkBits(node.prev, address));
  }
}
