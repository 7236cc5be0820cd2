/** The allocator of one size class: blocks with a free cell, exhausted blocks, and the page
    allocator underneath that new blocks come from and empty ones go back to. */
module SlubAllocator {
  import opened Bits
  import B = Buddy
  import BuddyTheorems
  import opened BuddyAllocator
  import opened Ilog2
  import opened Slab
  import opened Sequences
  import opened Wrappers

  const CELLS_PER_SLAB: nat := 128

  /** Page `page` starts a block of order `order` marked as a slab. */
  ghost predicate HoldsPage(s: B.State, page: nat, order: nat) {
    B.Wf(s) && B.Head(s, page) && s.pd[page] == B.Desc(B.Slab, order)
  }

  lemma HeldIsNotFree(s: B.State, page: nat, order: nat)
    requires B.Valid(s) && HoldsPage(s, page, order)
    ensures !B.IsFree(s, page)
  {
    assert B.Covers(s, page, page);
    BuddyTheorems.FreeByFlag(s, page);
    forall h: nat | B.Covers(s, h, page)
      ensures h == page
    {
      B.CoverUnique(s, h, page, page);
    }
  }

  /** Every slab block stays one. */
  ghost predicate KeepsPages(s: B.State, t: B.State) {
    forall page: nat, o: nat {:trigger HoldsPage(t, page, o)} :: HoldsPage(s, page, o) ==> HoldsPage(t, page, o)
  }

  /** Every slab block but the one at `gone` stays one. */
  ghost predicate KeepsOtherPages(s: B.State, t: B.State, gone: nat) {
    forall page: nat, o: nat {:trigger HoldsPage(t, page, o)} :: HoldsPage(s, page, o) && page != gone ==> HoldsPage(t, page, o)
  }

  /** Taking a block leaves every held page held, and the block was held by nobody. */
  lemma PagesHeldThroughTake(s: B.State, t: B.State, b: nat, order: nat)
    requires B.Valid(s) && B.Took(s, t, b, order, B.Slab)
    ensures B.Valid(t) && KeepsPages(s, t) && HoldsPage(t, b, order)
    ensures forall o: nat :: !HoldsPage(s, b, o)
  {
    BuddyTheorems.TakenIsSettled(t, b);
    assert B.IsFree(s, b);
    forall o: nat
      ensures !HoldsPage(s, b, o)
    {
      if HoldsPage(s, b, o) {
        HeldIsNotFree(s, b, o);
      }
    }
    forall page: nat, o: nat | HoldsPage(s, page, o)
      ensures HoldsPage(t, page, o)
    {
      HeldIsNotFree(s, page, o);
    }
  }

  /** Returning a block leaves every other held page held. */
  lemma PagesHeldThroughReturn(s: B.State, t: B.State, b: nat)
    requires B.Valid(s) && B.Head(s, b) && B.Returned(s, t, b, s.pd[b].order)
    ensures KeepsOtherPages(s, t, b)
  {
    forall page: nat, o: nat | HoldsPage(s, page, o) && page != b
      ensures HoldsPage(t, page, o)
    {
      HeldIsNotFree(s, page, o);
      assert B.Covers(s, b, page) <==> b <= page < b + Pow2(s.pd[b].order);
    }
  }

  /** The page allocator's state after the block at `page` was freed. */
  ghost function GivenBack(s: B.State, page: nat): B.State {
    if B.Inv(s, {page}) && B.Head(s, page) then B.DeallocateBlock(s, page) else s
  }

  /** The pages of a slab given back are free again, and nothing else changes hands. */
  lemma GivenBackIsReturned(s: B.State, page: nat, order: nat)
    requires B.Valid(s) && HoldsPage(s, page, order)
    ensures B.Returned(s, GivenBack(s, page), page, order)
  {
    BuddyTheorems.InUseIsLoose(s, page);
  }

  /** Every block of `bs` starts a slab block of the page allocator. */
  ghost predicate PagesHeld(bs: set<SlubBlock>, s: B.State, order: nat) {
    forall b :: b in bs ==> HoldsPage(s, b.page, order)
  }

  lemma PagesStayHeld(bs: set<SlubBlock>, s: B.State, t: B.State, order: nat)
    requires PagesHeld(bs, s, order) && KeepsPages(s, t)
    ensures PagesHeld(bs, t, order)
  {
    forall b | b in bs
      ensures HoldsPage(t, b.page, order)
    {
      assert HoldsPage(s, b.page, order);
    }
  }

  /** No block keeps its cells in the allocator's own counters. */
  ghost predicate ClearOf(bs: set<SlubBlock>, count: array<nat>) {
    forall b :: b in bs ==> b.words != count
  }

  ghost function BlocksOf(partial: seq<SlubBlock>, full: seq<SlubBlock>): set<SlubBlock> {
    (set b | b in partial) + (set b | b in full)
  }

  /** No block is listed twice and no two share memory or pages. */
  ghost predicate Apart(partial: seq<SlubBlock>, full: seq<SlubBlock>) {
    && NoDup(partial) && NoDup(full)
    && (forall b :: b in partial ==> b !in full)
    && (forall b, c :: b in BlocksOf(partial, full) && c in BlocksOf(partial, full) && b != c ==>
          b.words != c.words && b.page != c.page)
  }

  lemma MoveToFull(partial: seq<SlubBlock>, full: seq<SlubBlock>)
    requires Apart(partial, full) && partial != []
    ensures var p, f := partial[1..], full + [partial[0]];
      Apart(p, f) && BlocksOf(p, f) == BlocksOf(partial, full)
  {
    assert partial == [partial[0]] + partial[1..];
    assert partial[0] in partial;
    assert BlocksOf(partial[1..], full + [partial[0]]) == BlocksOf(partial, full);
  }

  lemma MoveToPartial(partial: seq<SlubBlock>, full: seq<SlubBlock>, b: SlubBlock)
    requires Apart(partial, full) && b in full
    ensures var p, f := partial + [b], Without(full, b);
      Apart(p, f) && BlocksOf(p, f) == BlocksOf(partial, full) && b in p && b !in f
      && forall x :: x in f ==> x in full
  {
    WithoutMembers(full, b);
    assert BlocksOf(partial + [b], Without(full, b)) == BlocksOf(partial, full);
  }

  /** Taking a block off keeps the later ones usable. */
  lemma DropKeepsUsable(partial: seq<SlubBlock>, b: SlubBlock)
    requires NoDup(partial) && b in partial
    requires forall i {:trigger partial[i]} :: 1 <= i < |partial| ==> partial[i].chain != [] && partial[i].retired
    ensures forall i {:trigger Without(partial, b)[i]} :: 1 <= i < |Without(partial, b)| ==>
      Without(partial, b)[i].chain != [] && Without(partial, b)[i].retired
  {
    var k :| 0 <= k < |partial| && partial[k] == b;
    WithoutAt(partial, k);
  }

  lemma DropPartial(partial: seq<SlubBlock>, full: seq<SlubBlock>, b: SlubBlock)
    requires Apart(partial, full) && b in partial
    ensures var p := Without(partial, b);
      Apart(p, full) && BlocksOf(p, full) == BlocksOf(partial, full) - {b}
  {
    WithoutMembers(partial, b);
    assert BlocksOf(Without(partial, b), full) == BlocksOf(partial, full) - {b};
  }

  /** What freeing a cell comes to. Two outcomes are failures of the code: NullLink, a write through a
      null link, and ListBroken, a list whose links no longer spell one (IntrusiveList.ListBase.PopNode). */
  datatype Freed = Kept | SlabReturned | NullLink | ListBroken

  class SizeClass {
    const index: nat
    var partial: seq<SlubBlock>
    var full: seq<SlubBlock>

    /** `makePool`: one allocator per size, no blocks yet. */
    constructor (index: nat)
      ensures this.index == index && partial == [] && full == []
    {
      this.index := index;
      partial, full := [], [];
    }

    ghost function Blocks(): set<SlubBlock>
      reads this
    {
      BlocksOf(partial, full)
    }

    ghost predicate BlockOk(b: SlubBlock)
      reads b, b.words
    {
      b.Valid() && b.Counted() && b.cells == CELLS_PER_SLAB && b.cellWords == 8 * Pow2(index)
    }

    /** Blocks on the full list are exhausted and retired; of those on the partial list only the first
        may be exhausted, and only the first may never have been retired. */
    ghost predicate Sorted()
      reads this, partial, full
    {
      && (forall b :: b in full ==> b.chain == [] && b.retired)
      && (forall i {:trigger partial[i]} :: 1 <= i < |partial| ==> partial[i].chain != [] && partial[i].retired)
    }

    ghost predicate MemoryOk()
      reads this, Blocks(), set b | b in Blocks() :: b.words
    {
      index <= 6 && Apart(partial, full) && (forall b :: b in Blocks() ==> BlockOk(b)) && Sorted()
    }

    /** The class's own part: its blocks are in order and on pages of their own. */
    ghost predicate Holds(a: Allocator)
      reads this, Blocks(), (set b | b in Blocks() :: b.words), a, a.pd, a.freelist, a.count
    {
      MemoryOk() && PagesHeld(Blocks(), a.Model(), index) && ClearOf(Blocks(), a.count)
    }

    ghost predicate Ok(a: Allocator)
      reads this, Blocks(), (set b | b in Blocks() :: b.words), a, a.pd, a.freelist, a.count
    {
      Holds(a) && B.Valid(a.Model())
    }

    /** The first block is exhausted and still on the partial list, as after its last allocation. */
    ghost predicate FrontExhausted()
      reads this, partial
    {
      partial != [] && partial[0].chain == []
    }

    /** The partial list once an exhausted first block is off it. */
    ghost function Usable(): seq<SlubBlock>
      reads this, partial
    {
      if FrontExhausted() then partial[1..] else partial
    }

    /** The full list once an exhausted first block is on it. */
    ghost function Retired(): seq<SlubBlock>
      reads this, partial
    {
      if FrontExhausted() then full + [partial[0]] else full
    }

    /** The counter of an exhausted block is overwritten. */
    method OverwriteCounter(block: SlubBlock)
      requires MemoryOk() && block in Blocks() && block.chain == []
      modifies block`inUse, block`retired
      ensures MemoryOk() && block.retired
    {
      block.CellsAreConserved();
      block.inUse := IN_USE_MAX;
      block.retired := true;
    }

    /** The exhausted front block moves to the full list, its counter overwritten. */
    method RetireFront()
      requires MemoryOk() && FrontExhausted()
      modifies this`partial, this`full, partial[0]
      ensures MemoryOk() && Blocks() == old(Blocks())
      ensures forall b :: b in Blocks() ==> b.live == old(b.live) && b.chain == old(b.chain) && (b.retired <==> old(b.retired) || b == old(partial)[0])
      ensures partial == old(partial)[1..] && full == old(full) + [old(partial)[0]]
    {
      var front := partial[0];
      assert front in partial && front in Blocks();
      MoveToFull(partial, full);
      OverwriteCounter(front);
      partial := partial[1..];
      full := full + [front];
    }

    /** The memory of a new slab: 128 cells fill the pages of its block exactly. */
    lemma SlabShape(words: nat)
      requires index <= 6 && words == 1024 * Pow2(index)
      ensures words == Times(CELLS_PER_SLAB, 8 * Pow2(index)) && 0 < 4 * words < CELL_NULL
    {
      TimesIsProduct(CELLS_PER_SLAB, 8 * Pow2(index));
      Pow2Monotone(index, 6);
    }

    /** Threads a fresh page block. Its descriptor came off the front of a free list, so its back
        link is null and the slab fields read zero (SlabFromFreeList). */
    method MakeBlock(page: nat) returns (b: SlubBlock)
      requires index <= 6
      ensures fresh(b) && fresh(b.words) && b.page == page && b.live == {} && b.chain != [] && b.chain[0] == 0 && BlockOk(b)
    {
      var words := new nat[1024 * Pow2(index)];
      SlabShape(words.Length);
      b := new SlubBlock(page, 8 * Pow2(index), CELLS_PER_SLAB, words, 0);
      b.MakeSlabs();
    }

    /** The blocks there were are still there, with the same live and free cells in all of them but `b`;
        retired are those that were and the one that moved to the full list. */
    twostate predicate KeepsOtherCells(new b: SlubBlock?)
      reads this, Blocks()
    {
      forall x :: x in old(Blocks()) ==>
        && x in Blocks() && (x != b ==> x.live == old(x.live) && x.chain == old(x.chain))
        && (x.retired <==> old(x.retired) || (x in full && x !in old(full)))
    }

    /** Puts a fresh block in front of a list that holds no usable one. */
    method AddBlock(page: nat) returns (b: SlubBlock)
      requires MemoryOk() && partial == [] && forall x :: x in Blocks() ==> x.page != page
      modifies this`partial
      ensures MemoryOk() && partial == [b] && Blocks() == old(Blocks()) + {b}
      ensures fresh(b) && fresh(b.words) && b.page == page && b.live == {} && b.chain != [] && b.chain[0] == 0
      ensures KeepsOtherCells(b)
    {
      b := MakeBlock(page);
      partial := [b] + partial;
      assert Blocks() == old(Blocks()) + {b};
    }

    /** The same, on pages just taken. */
    method AddSlab(a: Allocator, page: nat) returns (b: SlubBlock)
      requires Ok(a) && partial == [] && HoldsPage(a.Model(), page, index) && forall x :: x in Blocks() ==> x.page != page
      modifies this`partial
      ensures Ok(a) && partial == [b] && Blocks() == old(Blocks()) + {b} && KeepsOtherCells(b)
      ensures fresh(b) && fresh(b.words) && b.page == page && b.live == {} && b.chain != [] && b.chain[0] == 0
    {
      b := AddBlock(page);
    }

    /** Asks the page allocator for a block that holds one slab. */
    method AllocPages(a: Allocator) returns (page: Option<nat>)
      requires index <= 6 && B.Valid(a.Model())
      modifies a.pd, a.freelist, a.count
      ensures page == B.Allocate(old(a.Model()), index, B.Slab).1 && a.Model() == B.Allocate(old(a.Model()), index, B.Slab).0
      ensures page.None? ==> a.Model() == old(a.Model())
      ensures B.Valid(a.Model()) && KeepsPages(old(a.Model()), a.Model())
      ensures page.Some? ==> HoldsPage(a.Model(), page.value, index) && forall o: nat :: !HoldsPage(old(a.Model()), page.value, o)
    {
      SlabOrder(index);
      ghost var s := a.Model();
      page := a.AllocateWithOrder(CalculOrder(ClassSize(index) * CELLS_PER_SLAB), B.Slab);
      if page.Some? {
        PagesHeldThroughTake(s, a.Model(), page.value, index);
      }
    }

    /** The pages of one more slab. */
    method GetPages(a: Allocator) returns (page: Option<nat>)
      requires Ok(a)
      modifies a.pd, a.freelist, a.count
      ensures page == B.Allocate(old(a.Model()), index, B.Slab).1 && a.Model() == B.Allocate(old(a.Model()), index, B.Slab).0
      ensures page.None? ==> a.Model() == old(a.Model())
      ensures Ok(a) && KeepsPages(old(a.Model()), a.Model())
      ensures page.Some? ==> HoldsPage(a.Model(), page.value, index) && forall o: nat :: !HoldsPage(old(a.Model()), page.value, o)
      ensures page.Some? ==> forall x :: x in Blocks() ==> x.page != page.value
      ensures KeepsOtherCells(null)
    {
      ghost var s := a.Model();
      page := AllocPages(a);
      assert forall x :: x in Blocks() ==> HoldsPage(s, x.page, index);
    }

    /** Adds one block in front, if pages are to be had. */
    method Grow(a: Allocator) returns (b: SlubBlock?)
      requires Ok(a) && partial == []
      modifies this`partial, a.pd, a.freelist, a.count
      ensures Ok(a) && KeepsPages(old(a.Model()), a.Model())
      ensures b == null <==> B.Allocate(old(a.Model()), index, B.Slab).1.None?
      ensures a.Model() == B.Allocate(old(a.Model()), index, B.Slab).0
      ensures b == null ==> partial == [] && a.Model() == old(a.Model())
      ensures b != null ==>
                && fresh(b) && fresh(b.words) && b.live == {} && b.chain != [] && b.chain[0] == 0 && partial == [b]
                && forall o: nat :: !HoldsPage(old(a.Model()), b.page, o)
      ensures KeepsOtherCells(b)
    {
      var page := GetPages(a);
      if page.None? {
        return null;
      }
      b := AddSlab(a, page.value);
    }

    lemma FrontIsFreeIffLinked()
      requires MemoryOk() && partial != []
      ensures partial[0] in Blocks()
      ensures partial[0].freeOffset == CELL_NULL <==> partial[0].chain == []
    {
      assert partial[0] in partial && partial[0] in Blocks();
      partial[0].NullIffEmpty();
    }

    /** The retiring part of `alloc`, which calls itself after each exhausted front block. */
    method RetireExhausted()
      requires MemoryOk()
      modifies this, partial
      ensures MemoryOk() && Blocks() == old(Blocks())
      ensures forall b :: b in Blocks() ==> b.live == old(b.live) && b.chain == old(b.chain)
      ensures forall b :: b in Blocks() ==> (b.retired <==> old(b.retired) || (b in full && b !in old(full)))
      ensures partial == old(Usable()) && full == old(Retired()) && !FrontExhausted()
      decreases |partial|
    {
      if partial != [] {
        FrontIsFreeIffLinked();
        if partial[0].freeOffset == CELL_NULL {
          RetireFront();
          RetireExhausted();
        }
      }
    }

    /** Between the two states a cell that was not live was handed out: the first free cell of a block of
        this class, or the first one of a block on pages no slab held. */
    twostate predicate HandsOut(a: Allocator, new b: SlubBlock, cell: nat)
      reads this, b, a, a.pd, a.freelist, a.count
    {
      && cell < CELLS_PER_SLAB
      && (b in old(Blocks()) ==> old(b.chain) == [cell] + b.chain && cell !in old(b.live) && b.live == old(b.live) + {cell})
      && (b !in old(Blocks()) ==> cell == 0 && b.live == {cell} && forall o: nat :: !HoldsPage(old(a.Model()), b.page, o))
    }

    /** Every retired block is still there and still retired. */
    twostate predicate KeepsRetired()
      reads this, Blocks()
    {
      forall x :: x in old(Blocks()) && old(x.retired) ==> x in Blocks() && x.retired
    }

    /** A cell of the front block, which has a free one; no other block is touched. */
    method FrontCell() returns (obj: Option<nat>, ghost cell: nat)
      requires MemoryOk() && partial != [] && partial[0].chain != []
      modifies partial[0]
      ensures MemoryOk() && obj == Some(partial[0].Offset(cell)) && cell < CELLS_PER_SLAB
      ensures cell !in old(partial[0].live) && partial[0].live == old(partial[0].live) + {cell}
      ensures old(partial[0].chain) == [cell] + partial[0].chain
      ensures partial[0].retired == old(partial[0].retired)
    {
      var front := partial[0];
      assert front in partial && front in Blocks();
      obj, cell := front.AllocInOneBlock();
    }

    /** Hands out a cell of the front block, which has a free one. */
    method AllocFromFront(a: Allocator) returns (b: SlubBlock, obj: Option<nat>, ghost cell: nat)
      requires Ok(a) && partial != [] && partial[0].chain != []
      modifies partial[0]
      ensures Ok(a) && b == partial[0] && obj == Some(b.Offset(cell))
      ensures HandsOut(a, b, cell) && KeepsOtherCells(b)
    {
      b := partial[0];
      assert b in partial && b in Blocks();
      obj, cell := FrontCell();
    }

    /** Hands out the first cell of a new block. */
    method TakeNew(a: Allocator) returns (b: SlubBlock?, obj: Option<nat>, ghost cell: nat)
      requires Ok(a) && partial == []
      modifies this`partial, a.pd, a.freelist, a.count
      ensures Ok(a) && KeepsPages(old(a.Model()), a.Model())
      ensures obj.None? ==> a.Model() == old(a.Model())
      ensures obj.None? <==> B.Allocate(old(a.Model()), index, B.Slab).1.None?
      ensures a.Model() == B.Allocate(old(a.Model()), index, B.Slab).0
      ensures partial == if obj.None? then [] else [b]
      ensures obj.Some? ==> b != null && fresh(b) && fresh(b.words) && obj.value == b.Offset(cell) && HandsOut(a, b, cell)
      ensures KeepsOtherCells(b)
    {
      b := Grow(a);
      if b == null {
        return null, None, 0;
      }
      b, obj, cell := AllocFromFront(a);
    }

    /** Hands out a cell of the first block, or of a new one when the list is empty. */
    method Take(a: Allocator) returns (b: SlubBlock?, obj: Option<nat>, ghost cell: nat)
      requires Ok(a) && !FrontExhausted()
      modifies this`partial, partial, a.pd, a.freelist, a.count
      ensures Ok(a) && KeepsPages(old(a.Model()), a.Model())
      ensures obj.None? ==> a.Model() == old(a.Model())
      ensures obj.None? <==> old(partial) == [] && B.Allocate(old(a.Model()), index, B.Slab).1.None?
      ensures a.Model() == if old(partial) == [] then B.Allocate(old(a.Model()), index, B.Slab).0 else old(a.Model())
      ensures partial == if old(partial) != [] || obj.None? then old(partial) else [b]
      ensures obj.Some? ==> partial != [] && b == partial[0] && obj.value == b.Offset(cell) && HandsOut(a, b, cell)
      ensures obj.Some? && b !in old(Blocks()) ==> fresh(b) && fresh(b.words)
      ensures forall x :: x in Blocks() ==> x in old(Blocks()) || x == b
      ensures KeepsOtherCells(b)
    {
      if partial == [] {
        b, obj, cell := TakeNew(a);
      } else {
        b, obj, cell := AllocFromFront(a);
      }
    }

    /** Hands out a cell that was not live, from the first block with a free one or from a new
        block; fails exactly when every block is exhausted and no pages are to be had. */
    method Alloc(a: Allocator) returns (b: SlubBlock?, obj: Option<nat>, ghost cell: nat)
      requires Ok(a)
      modifies this, partial, a.pd, a.freelist, a.count
      ensures Ok(a) && KeepsPages(old(a.Model()), a.Model())
      ensures obj.None? ==> a.Model() == old(a.Model())
      ensures obj.None? <==> old(Usable()) == [] && B.Allocate(old(a.Model()), index, B.Slab).1.None?
      ensures a.Model() == if old(Usable()) == [] then B.Allocate(old(a.Model()), index, B.Slab).0 else old(a.Model())
      ensures full == old(Retired()) && partial == if old(Usable()) != [] || obj.None? then old(Usable()) else [b]
      ensures obj.Some? ==> partial != [] && b == partial[0] && obj.value == b.Offset(cell) && HandsOut(a, b, cell)
      ensures obj.Some? && b !in old(Blocks()) ==> fresh(b) && fresh(b.words)
      ensures forall x :: x in Blocks() ==> x in old(Blocks()) || x == b
      ensures KeepsOtherCells(b)
    {
      RetireExhausted();
      b, obj, cell := Take(a);
    }

    /** Every cell has the size of the class. */
    lemma CellSize(b: SlubBlock)
      requires MemoryOk() && b in partial
      ensures 4 * b.cellWords == ClassSize(index)
    {
      assert b in Blocks();
    }

    /** The counter reads zero exactly for a block with no live cell that was never retired. */
    lemma ZeroCounter(b: SlubBlock)
      requires BlockOk(b)
      ensures b.inUse == 0 <==> b.live == {} && !b.retired
    {
      b.CellsAreConserved();
    }

    /** The cell is the next one to be handed out, the block is retired only if it was, and no word but
        the first of the cell was written: what the owners of other cells wrote is still there. */
    twostate predicate Pushed(block: SlubBlock, cell: nat)
      reads block, block.words
    {
      && block.chain == [cell] + old(block.chain) && block.retired == old(block.retired)
      && forall j :: 0 <= j < block.words.Length && j != block.Word(cell) ==> block.words[j] == old(block.words[j])
    }

    /** A cell comes back to its block; no other block is touched. */
    method FreeInBlock(block: SlubBlock, offset: nat, ghost cell: nat)
      requires MemoryOk() && block in Blocks() && cell in block.live && offset == block.Offset(cell)
      modifies block`inUse, block`freeOffset, block`chain, block`live, block.words
      ensures forall b :: b in Blocks() ==> BlockOk(b) && (b != block ==> b.chain == old(b.chain))
      ensures block.chain != [] && block.live == old(block.live) - {cell} && Pushed(block, cell)
    {
      block.FreeInOneBlock(offset, cell);
    }

    /** A cell of a block with a free one comes back; the lists stay. */
    method FreeCell(block: SlubBlock, offset: nat, ghost cell: nat)
      requires MemoryOk() && block in Blocks() && block !in full && cell in block.live && offset == block.Offset(cell)
      modifies block`inUse, block`freeOffset, block`chain, block`live, block.words
      ensures MemoryOk() && block.live == old(block.live) - {cell} && Pushed(block, cell)
      ensures block.inUse == 0 <==> block.live == {} && !block.retired
    {
      FreeInBlock(block, offset, cell);
      ZeroCounter(block);
    }

    /** A cell of a block on the full list comes back: the block has a free cell again and moves to
        the end of the partial list. */
    method Revive(block: SlubBlock, offset: nat, ghost cell: nat)
      requires MemoryOk() && block in full && cell in block.live && offset == block.Offset(cell)
      modifies this`partial, this`full, block`inUse, block`freeOffset, block`chain, block`live, block.words
      ensures MemoryOk() && Blocks() == old(Blocks()) && block.live == old(block.live) - {cell} && Pushed(block, cell)
      ensures partial == old(partial) + [block] && full == Without(old(full), block)
    {
      FreeInBlock(block, offset, cell);
      MoveToPartial(partial, full, block);
      full := Without(full, block);
      partial := partial + [block];
    }

    /** What `free` comes to: by the list the block is on, its counter and its place on the list.
        SlubLists.FailuresOnTheLinks ties the two failures to the links of the lists. */
    ghost function Outcome(block: SlubBlock): Freed
      reads this, block
    {
      if block.chain == [] then
        if block !in full then NullLink else if !ExactRemoval(full, block) then ListBroken else Kept
      else if |block.live| > 1 || block.retired then Kept else SlabReturned
    }

    /** `free` for an exhausted block, which is taken off the full list even when it is not on it yet:
        being the first of the partial list, its back link is null and the code writes through it. */
    method FreeExhausted(block: SlubBlock, offset: nat, ghost cell: nat) returns (r: Freed)
      requires MemoryOk() && block in Blocks() && block.chain == [] && cell in block.live && offset == block.Offset(cell)
      modifies this`partial, this`full, block`inUse, block`freeOffset, block`chain, block`live, block.words
      ensures r == (if block !in old(full) then NullLink else if !ExactRemoval(old(full), block) then ListBroken else Kept)
      ensures block.live == old(block.live) - {cell} && Blocks() == old(Blocks()) && KeepsRetired() && Pushed(block, cell)
      ensures r == Kept ==> MemoryOk() && block in partial
      ensures r == NullLink ==> old(partial) != [] && block == old(partial)[0]
    {
      if block !in full {
        FreeInBlock(block, offset, cell);
        return NullLink;
      }
      if !ExactRemoval(full, block) {
        FreeInBlock(block, offset, cell);
        return ListBroken;
      }
      Revive(block, offset, cell);
      r := Kept;
    }

    /** `free` for a block with a free cell: the pages go back when the counter reads zero. */
    method FreeUsable(a: Allocator, block: SlubBlock, offset: nat, ghost cell: nat) returns (r: Freed)
      requires Ok(a) && block in Blocks() && block.chain != [] && cell in block.live && offset == block.Offset(cell)
      modifies this`partial, block`inUse, block`freeOffset, block`chain, block`live, block.words, a.pd, a.freelist, a.count
      ensures r == (if old(|block.live| > 1 || block.retired) then Kept else SlabReturned)
      ensures block.live == old(block.live) - {cell} && KeepsRetired()
      ensures Ok(a) && KeepsOtherPages(old(a.Model()), a.Model(), block.page)
      ensures r == SlabReturned ==> !block.retired && block.live == {} && Blocks() == old(Blocks()) - {block}
      ensures r == SlabReturned ==> a.Model() == GivenBack(old(a.Model()), block.page)
      ensures Pushed(block, cell)
      ensures r == Kept ==> Blocks() == old(Blocks()) && block in partial && a.Model() == old(a.Model())
    {
      FreeCell(block, offset, cell);
      OnlyCell(old(block.live), block.live, cell);
      if block.inUse != 0 {
        return Kept;
      }
      ReturnIsExact(block);
      GiveBack(a, block);
      r := SlabReturned;
    }

    /** Takes a cell back. The pages go back too when that leaves no live cell, unless the block
        was on the full list or had ever been there. */
    method Free(a: Allocator, block: SlubBlock, offset: nat, ghost cell: nat) returns (r: Freed)
      requires Ok(a) && block in Blocks() && cell in block.live && offset == block.Offset(cell)
      modifies this`partial, this`full, block, block.words, a.pd, a.freelist, a.count
      ensures r == old(Outcome(block))
      ensures block.live == old(block.live) - {cell}
      ensures r == Kept || r == SlabReturned ==> Ok(a) && KeepsOtherPages(old(a.Model()), a.Model(), block.page)
      ensures r == SlabReturned ==> block.live == {} && Blocks() == old(Blocks()) - {block}
      ensures r == SlabReturned ==> a.Model() == GivenBack(old(a.Model()), block.page)
      ensures Pushed(block, cell)
      ensures r == Kept ==> Blocks() == old(Blocks()) && block in partial && a.Model() == old(a.Model())
      ensures r == NullLink ==> old(partial) != [] && block == old(partial)[0]
      ensures KeepsRetired()
    {
      block.NullIffEmpty();
      if block.freeOffset == CELL_NULL {
        r := FreeExhausted(block, offset, cell);
      } else {
        r := FreeUsable(a, block, offset, cell);
      }
    }

    static lemma OnlyCell(was: set<nat>, live: set<nat>, cell: nat)
      requires cell in was && live == was - {cell}
      ensures live == {} <==> |was| <= 1
    {
      assert |was| == |live| + 1;
    }

    /** Only the first block can be one that was never retired, so the removal of a block whose pages
        go back is one that the list code carries out. */
    lemma ReturnIsExact(block: SlubBlock)
      requires MemoryOk() && block in partial && !block.retired
      ensures block == partial[0] && ExactRemoval(partial, block)
    {
      var i :| 0 <= i < |partial| && partial[i] == block;
      assert i == 0;
    }

    /** Takes a block off the partial list. */
    method DropBlock(block: SlubBlock)
      requires MemoryOk() && block in partial && ExactRemoval(partial, block)
      modifies this`partial
      ensures MemoryOk() && Blocks() == old(Blocks()) - {block}
      ensures forall b :: b in Blocks() ==> b.page != block.page
    {
      DropPartial(partial, full, block);
      DropKeepsUsable(partial, block);
      partial := Without(partial, block);
    }

    method GiveBack(a: Allocator, block: SlubBlock)
      requires Ok(a) && block in partial && ExactRemoval(partial, block)
      modifies this`partial, a.pd, a.freelist, a.count
      ensures Ok(a) && Blocks() == old(Blocks()) - {block} && KeepsOtherPages(old(a.Model()), a.Model(), block.page)
      ensures a.Model() == GivenBack(old(a.Model()), block.page)
    {
      ghost var s := a.Model();
      assert block in Blocks();
      BuddyTheorems.InUseIsLoose(s, block.page);
      DropBlock(block);
      assert PagesHeld(Blocks(), s, index);
      a.Deallocate(block.page);
      PagesHeldThroughReturn(s, a.Model(), block.page);
    }
  }
}
