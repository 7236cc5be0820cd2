/** The seven small allocators on one page allocator: allocation by size and freeing by address. */
module SlubPool {
  import opened Bits
  import B = Buddy
  import opened BuddyAllocator
  import opened Ilog2
  import opened Kfree
  import opened Slab
  import opened SlubAllocator
  import opened Wrappers

  const CLASSES: nat := 7

  /** The two sets of blocks have no block and no memory in common. */
  ghost predicate Separate(bs: set<SlubBlock>, cs: set<SlubBlock>) {
    forall b, c :: b in bs && c in cs ==> b != c && b.words != c.words
  }

  /** A class whose objects did not change stays in order. */
  twostate lemma UntouchedMemory(c: SizeClass)
    requires unchanged(c) && forall b :: b in c.Blocks() ==> unchanged(b) && unchanged(b.words)
    ensures old(c.MemoryOk()) ==> c.MemoryOk()
  {
    if old(c.MemoryOk()) {
      forall b | b in c.Blocks()
        ensures c.BlockOk(b)
      {
        assert old(c.BlockOk(b));
      }
      assert forall b :: b in c.full || b in c.partial ==> b in c.Blocks();
      forall i | 1 <= i < |c.partial|
        ensures c.partial[i].chain != [] && c.partial[i].retired
      {
        assert c.partial[i] in c.Blocks();
        assert old(c.partial[i].chain) != [] && old(c.partial[i].retired);
      }
    }
  }

  /** An allocation from class `c`: its blocks stay apart from `ds`, and every slab keeps its pages. */
  method AllocApart(c: SizeClass, a: Allocator, ghost ds: set<SlubBlock>) returns (b: SlubBlock?, obj: Option<nat>, ghost cell: nat)
    requires c.Ok(a) && Separate(c.Blocks(), ds)
    modifies c, c.partial, a.pd, a.freelist, a.count
    ensures obj.None? <==> old(c.Usable()) == [] && B.Allocate(old(a.Model()), c.index, B.Slab).1.None?
    ensures a.Model() == if old(c.Usable()) == [] then B.Allocate(old(a.Model()), c.index, B.Slab).0 else old(a.Model())
    ensures obj.Some? ==> b != null && b in c.partial && obj.value == b.Offset(cell) && c.HandsOut(a, b, cell)
    ensures c.Ok(a) && c.KeepsOtherCells(b) && c.KeepsRetired()
    ensures Separate(c.Blocks(), ds) && KeepsPages(old(a.Model()), a.Model())
  {
    b, obj, cell := c.Alloc(a);
    forall x, d | x in c.Blocks() && d in ds
      ensures x != d && x.words != d.words
    {
      assert x in old(c.Blocks()) || x == b;
    }
  }

  ghost function BlocksOfAll(cs: set<SizeClass>): set<SlubBlock>
    reads cs
  {
    set c, b | c in cs && b in c.Blocks() :: b
  }

  /** Every retired block is still there and still retired. */
  twostate predicate RetiredStay(cs: set<SizeClass>)
    reads cs, BlocksOfAll(cs)
  {
    forall x :: x in old(BlocksOfAll(cs)) && old(x.retired) ==> x in BlocksOfAll(cs) && x.retired
  }

  /** Every class is in order, and no two share a block or memory. */
  ghost predicate AllOk(cs: set<SizeClass>, a: Allocator)
    reads cs, BlocksOfAll(cs), (set b | b in BlocksOfAll(cs) :: b.words), a, a.pd, a.freelist, a.count
  {
    && B.Valid(a.Model()) && (forall c {:trigger c.Holds(a)} :: c in cs ==> c.Holds(a))
    && (forall c, d {:trigger Separate(c.Blocks(), d.Blocks())} :: c in cs && d in cs && c != d ==> Separate(c.Blocks(), d.Blocks()))
  }

  ghost predicate ApartFrom(c: SizeClass, cs: set<SizeClass>)
    reads c, cs
  {
    forall d :: d in cs ==> Separate(c.Blocks(), d.Blocks())
  }

  lemma AllOkSplit(cs: set<SizeClass>, c: SizeClass, a: Allocator)
    requires AllOk(cs, a) && c in cs
    ensures c.Ok(a) && AllOk(cs - {c}, a) && ApartFrom(c, cs - {c})
  {
  }

  lemma AllOkJoin(cs: set<SizeClass>, c: SizeClass, a: Allocator)
    requires c in cs && c.Ok(a) && AllOk(cs - {c}, a) && ApartFrom(c, cs - {c})
    ensures AllOk(cs, a)
  {
    forall d, e | d in cs && e in cs && d != e
      ensures Separate(d.Blocks(), e.Blocks())
    {
      if e == c {
        assert Separate(c.Blocks(), d.Blocks());
      }
    }
  }

  /** An allocation from class `c` leaves all other classes in order and apart. */
  method AllocBeside(c: SizeClass, a: Allocator, ghost others: set<SizeClass>) returns (b: SlubBlock?, obj: Option<nat>, ghost cell: nat)
    requires c.Ok(a) && c !in others && AllOk(others, a) && ApartFrom(c, others)
    modifies c, c.partial, a.pd, a.freelist, a.count
    ensures obj.None? <==> old(c.Usable()) == [] && B.Allocate(old(a.Model()), c.index, B.Slab).1.None?
    ensures a.Model() == if old(c.Usable()) == [] then B.Allocate(old(a.Model()), c.index, B.Slab).0 else old(a.Model())
    ensures obj.Some? ==> b != null && b in c.partial && obj.value == b.Offset(cell) && c.HandsOut(a, b, cell)
    ensures c.Ok(a) && c.KeepsOtherCells(b) && c.KeepsRetired()
    ensures AllOk(others, a) && ApartFrom(c, others) && RetiredStay(others)
  {
    ghost var s, ds := a.Model(), BlocksOfAll(others);
    assert forall d :: d in others ==> d.Holds(a);
    b, obj, cell := AllocApart(c, a, ds);
    forall d | d in others
      ensures d.Holds(a) && d.Blocks() == old(d.Blocks()) && Separate(c.Blocks(), d.Blocks()) && d.KeepsRetired()
    {
      UntouchedMemory(d);
      PagesStayHeld(d.Blocks(), s, a.Model(), d.index);
    }
  }

  /** An allocation from one of the classes keeps all of them in order. */
  method AllocAmong(ghost cs: set<SizeClass>, c: SizeClass, a: Allocator) returns (b: SlubBlock?, obj: Option<nat>, ghost cell: nat)
    requires AllOk(cs, a) && c in cs
    modifies c, c.partial, a.pd, a.freelist, a.count
    ensures AllOk(cs, a)
    ensures obj.None? <==> old(c.Usable()) == [] && B.Allocate(old(a.Model()), c.index, B.Slab).1.None?
    ensures a.Model() == if old(c.Usable()) == [] then B.Allocate(old(a.Model()), c.index, B.Slab).0 else old(a.Model())
    ensures obj.Some? ==> b != null && b in c.partial && obj.value == b.Offset(cell) && c.HandsOut(a, b, cell)
    ensures c.KeepsOtherCells(b) && RetiredStay(cs)
  {
    AllOkSplit(cs, c, a);
    b, obj, cell := AllocBeside(c, a, cs - {c});
    AllOkJoin(cs, c, a);
  }

  /** The seven allocators, one for each class. */
  ghost predicate OnePerClass(slubs: seq<SizeClass>, cs: set<SizeClass>) {
    |slubs| == CLASSES && forall i {:trigger slubs[i] in cs} :: 0 <= i < CLASSES ==> slubs[i] in cs && slubs[i].index == i
  }

  lemma EmptyClassHolds(c: SizeClass, a: Allocator)
    requires c.index <= 6 && c.partial == [] == c.full
    ensures c.Holds(a) && c.Blocks() == {}
  {
    assert c.Blocks() == {};
  }

  /** `makePool`: on any state of the page allocator, seven classes without blocks are in order. */
  method MakePool(a: Allocator) returns (slubs: seq<SizeClass>, ghost cs: set<SizeClass>)
    requires B.Valid(a.Model())
    ensures AllOk(cs, a) && OnePerClass(slubs, cs) && fresh(cs)
    ensures forall c :: c in cs ==> c.partial == [] == c.full
    ensures forall c, d :: c in cs && d in cs && c != d ==> c.index != d.index
  {
    slubs, cs := [], {};
    for i := 0 to CLASSES
      invariant |slubs| == i && fresh(cs)
      invariant forall j {:trigger slubs[j] in cs} :: 0 <= j < i ==> slubs[j] in cs && slubs[j].index == j
      invariant forall c :: c in cs ==> c.index < i && c.partial == [] == c.full
      invariant forall c, d :: c in cs && d in cs && c != d ==> c.index != d.index
    {
      var c := new SizeClass(i);
      slubs := slubs + [c];
      cs := cs + {c};
    }
    forall c | c in cs
      ensures c.Holds(a) && c.Blocks() == {}
    {
      EmptyClassHolds(c, a);
    }
  }

  /** A request that class `i` can hold, served from it. */
  method Serve(slubs: seq<SizeClass>, ghost cs: set<SizeClass>, a: Allocator, i: nat, ghost size: nat)
    returns (b: SlubBlock?, obj: Option<nat>, ghost cell: nat)
    requires AllOk(cs, a) && OnePerClass(slubs, cs) && i < CLASSES && size <= ClassSize(i)
    modifies slubs[i], slubs[i].partial, a.pd, a.freelist, a.count
    ensures AllOk(cs, a)
    ensures obj.None? <==> old(slubs[i].Usable()) == [] && B.Allocate(old(a.Model()), i, B.Slab).1.None?
    ensures a.Model() == if old(slubs[i].Usable()) == [] then B.Allocate(old(a.Model()), i, B.Slab).0 else old(a.Model())
    ensures obj.Some? ==> b != null && b in slubs[i].partial && obj.value == b.Offset(cell) && slubs[i].HandsOut(a, b, cell)
    ensures obj.Some? ==> size <= 4 * b.cellWords == ClassSize(i)
    ensures slubs[i].KeepsOtherCells(b) && RetiredStay(cs)
  {
    assert slubs[i] in cs;
    b, obj, cell := AllocAmong(cs, slubs[i], a);
    if obj.Some? {
      assert slubs[i].Holds(a);
      slubs[i].CellSize(b);
    }
  }

  /** The small path of `kmalloc`: a cell that was not live, from the smallest class `i` that holds the
      request; all seven classes stay in order. */
  method KMallocSmall(slubs: seq<SizeClass>, ghost cs: set<SizeClass>, a: Allocator, size: nat)
    returns (b: SlubBlock?, obj: Option<nat>, ghost cell: nat, ghost i: nat)
    requires 1 <= size <= 2048 && AllOk(cs, a) && OnePerClass(slubs, cs)
    modifies slubs[ClassOf(size)], slubs[ClassOf(size)].partial, a.pd, a.freelist, a.count
    ensures AllOk(cs, a) && i == ClassOf(size)
    ensures obj.None? <==> old(slubs[ClassOf(size)].Usable()) == [] && B.Allocate(old(a.Model()), i, B.Slab).1.None?
    ensures a.Model() == if old(slubs[ClassOf(size)].Usable()) == [] then B.Allocate(old(a.Model()), i, B.Slab).0 else old(a.Model())
    ensures obj.Some? ==> b != null && b in slubs[i].partial && obj.value == b.Offset(cell) && slubs[i].HandsOut(a, b, cell)
    ensures obj.Some? ==> size <= 4 * b.cellWords == ClassSize(i) && forall j: nat :: j < i ==> ClassSize(j) < size
    ensures slubs[i].KeepsOtherCells(b) && RetiredStay(cs)
  {
    SmallestClassThatFits(size);
    var index := ClassOf(size);
    i := index;
    b, obj, cell := Serve(slubs, cs, a, index, size);
  }

  // ---- freeing ----

  /** A cell of class `c` comes back: its blocks stay apart from `ds`, and every other slab keeps its pages. */
  method FreeApart(c: SizeClass, a: Allocator, block: SlubBlock, offset: nat, ghost cell: nat, ghost ds: set<SlubBlock>) returns (r: Freed)
    requires c.Ok(a) && block in c.Blocks() && cell in block.live && offset == block.Offset(cell)
    requires Separate(c.Blocks(), ds)
    modifies c`partial, c`full, block, block.words, a.pd, a.freelist, a.count
    ensures r == old(c.Outcome(block)) && block.live == old(block.live) - {cell} && c.KeepsRetired()
    ensures c.Pushed(block, cell) && (r == Kept ==> a.Model() == old(a.Model()))
    ensures r == SlabReturned ==> a.Model() == GivenBack(old(a.Model()), block.page)
    ensures r == Kept || r == SlabReturned ==>
              c.Ok(a) && Separate(c.Blocks(), ds) && KeepsOtherPages(old(a.Model()), a.Model(), block.page)
  {
    r := c.Free(a, block, offset, cell);
  }

  /** Slabs of two classes start at different pages. */
  lemma OtherClassOtherPage(s: B.State, page: nat, order: nat, ds: set<SlubBlock>, o: nat)
    requires HoldsPage(s, page, order) && PagesHeld(ds, s, o) && order != o
    ensures forall x :: x in ds ==> x.page != page
  {
    forall x | x in ds
      ensures x.page != page
    {
      assert HoldsPage(s, x.page, o);
    }
  }

  lemma OtherPagesStayHeld(ds: set<SlubBlock>, s: B.State, t: B.State, o: nat, gone: nat)
    requires PagesHeld(ds, s, o) && KeepsOtherPages(s, t, gone) && forall x :: x in ds ==> x.page != gone
    ensures PagesHeld(ds, t, o)
  {
    forall x | x in ds
      ensures HoldsPage(t, x.page, o)
    {
      assert HoldsPage(s, x.page, o);
    }
  }

  /** A cell that comes back to class `c` leaves all other classes in order and apart, as long as no
      list is broken. */
  method FreeBeside(c: SizeClass, a: Allocator, block: SlubBlock, offset: nat, ghost cell: nat, ghost others: set<SizeClass>) returns (r: Freed)
    requires c.Ok(a) && block in c.Blocks() && cell in block.live && offset == block.Offset(cell)
    requires AllOk(others, a) && ApartFrom(c, others) && forall d :: d in others ==> d.index != c.index
    modifies c`partial, c`full, block, block.words, a.pd, a.freelist, a.count
    ensures r == old(c.Outcome(block)) && block.live == old(block.live) - {cell} && c.KeepsRetired()
    ensures c.Pushed(block, cell) && (r == Kept ==> a.Model() == old(a.Model()))
    ensures r == SlabReturned ==> a.Model() == GivenBack(old(a.Model()), block.page)
    ensures r == Kept || r == SlabReturned ==> c.Ok(a) && AllOk(others, a) && ApartFrom(c, others) && RetiredStay(others)
  {
    ghost var s, ds := a.Model(), BlocksOfAll(others);
    assert forall d :: d in others ==> d.Holds(a);
    r := FreeApart(c, a, block, offset, cell, ds);
    if r == Kept || r == SlabReturned {
      forall d | d in others
        ensures d.Holds(a) && d.Blocks() == old(d.Blocks()) && Separate(c.Blocks(), d.Blocks()) && d.KeepsRetired()
      {
        UntouchedMemory(d);
        OtherClassOtherPage(s, block.page, c.index, d.Blocks(), d.index);
        OtherPagesStayHeld(d.Blocks(), s, a.Model(), d.index, block.page);
      }
    }
  }

  /** A cell that comes back to one of the classes keeps all of them in order, as long as no list is
      broken. */
  method FreeAmong(ghost cs: set<SizeClass>, c: SizeClass, a: Allocator, block: SlubBlock, offset: nat, ghost cell: nat) returns (r: Freed)
    requires AllOk(cs, a) && c in cs && block in c.Blocks() && cell in block.live && offset == block.Offset(cell)
    requires forall d :: d in cs && d != c ==> d.index != c.index
    modifies c`partial, c`full, block, block.words, a.pd, a.freelist, a.count
    ensures r == old(c.Outcome(block)) && block.live == old(block.live) - {cell} && c.KeepsRetired()
    ensures c.Pushed(block, cell) && (r == Kept ==> a.Model() == old(a.Model()))
    ensures r == SlabReturned ==> a.Model() == GivenBack(old(a.Model()), block.page)
    ensures r == Kept || r == SlabReturned ==> AllOk(cs, a) && RetiredStay(cs)
  {
    AllOkSplit(cs, c, a);
    r := FreeBeside(c, a, block, offset, cell, cs - {c});
    if r == Kept || r == SlabReturned {
      AllOkJoin(cs, c, a);
    }
  }

  /** The address of a cell, as the kernel's pointer to it is translated. */
  function Address(block: SlubBlock, cell: nat): nat {
    0x1000 * block.page + block.Offset(cell)
  }

  /** A cell's address lies on a page of its block. */
  lemma CellInBlock(s: B.State, block: SlubBlock, index: nat, cell: nat)
    requires B.Valid(s) && HoldsPage(s, block.page, index)
    requires block.Shape() && block.cells == CELLS_PER_SLAB && block.cellWords == 8 * Pow2(index) && cell < block.cells
    ensures B.Covers(s, block.page, Address(block, cell) / 0x1000)
    ensures s.lo <= Address(block, cell) / 0x1000 < s.hi
  {
    block.CellFits(cell);
    TimesIsProduct(CELLS_PER_SLAB, 8 * Pow2(index));
    assert block.Offset(cell) < 0x1000 * Pow2(index);
    B.BlockInside(s, block.page);
  }

  /** The bytes of a cell lie inside the pages of its block. */
  lemma CellBytes(block: SlubBlock, index: nat, cell: nat)
    requires block.Shape() && block.cells == CELLS_PER_SLAB && block.cellWords == 8 * Pow2(index) && cell < block.cells
    ensures block.Offset(cell) + 4 * block.cellWords <= 0x1000 * Pow2(index)
  {
    block.CellFits(cell);
    TimesIsProduct(CELLS_PER_SLAB, 8 * Pow2(index));
  }

  /** Two slabs at different pages have no page in common. */
  lemma SlabsApart(s: B.State, page: nat, order: nat, other: nat, o: nat)
    requires B.Valid(s) && HoldsPage(s, page, order) && HoldsPage(s, other, o) && page < other
    ensures page + Pow2(order) <= other
  {
    if other < page + Pow2(order) {
      assert B.Covers(s, page, other);
    }
  }

  /** What the allocator is for: any two live cells, of whatever classes, have no byte in common. */
  lemma LiveCellsDoNotOverlap(cs: set<SizeClass>, a: Allocator, c: SizeClass, b: SlubBlock, k: nat, d: SizeClass, x: SlubBlock, l: nat)
    requires AllOk(cs, a) && c in cs && d in cs && (c != d ==> c.index != d.index)
    requires b in c.Blocks() && x in d.Blocks() && k in b.live && l in x.live && (b != x || k != l)
    ensures Address(b, k) + 4 * b.cellWords <= Address(x, l) || Address(x, l) + 4 * x.cellWords <= Address(b, k)
  {
    assert c.Holds(a) && d.Holds(a);
    assert c.BlockOk(b) && d.BlockOk(x) && HoldsPage(a.Model(), b.page, c.index) && HoldsPage(a.Model(), x.page, d.index);
    if b == x {
      if k < l {
        CellsDoNotOverlap(k, l, b.cellWords);
      } else {
        CellsDoNotOverlap(l, k, b.cellWords);
      }
    } else {
      CellBytes(b, c.index, k);
      CellBytes(x, d.index, l);
      if b.page < x.page {
        SlabsApart(a.Model(), b.page, c.index, x.page, d.index);
      } else {
        SlabsApart(a.Model(), x.page, d.index, b.page, c.index);
      }
    }
  }

  /** From the address of a cell the search ends at the head of the cell's block. */
  method FindBlock(ghost cs: set<SizeClass>, ghost c: SizeClass, a: Allocator, ptr: nat, ghost block: SlubBlock, ghost cell: nat) returns (head: nat)
    requires ptr == 0xffff_8000_0000_0000 + 0x1000 * block.page + block.Offset(cell) < 0x1_0000_0000_0000_0000
    requires AllOk(cs, a) && c in cs && block in c.Blocks() && cell in block.live
    ensures AllOk(cs, a)
    ensures head == block.page && head < a.pd.Length && a.pd[head].flag == B.Slab
    ensures ToPhys(ptr) - 0x1000 * head == block.Offset(cell)
  {
    KernelPointerTranslates(Address(block, cell));
    ghost var s := a.Model();
    assert c.Holds(a);
    assert c.BlockOk(block) && HoldsPage(s, block.page, c.index);
    CellInBlock(s, block, c.index, cell);
    var atHead;
    head, atHead := FindHead(a, PageOf(ptr));
    forall d | d in cs
      ensures d.Holds(a)
    {
      assert old(d.Holds(a));
      UntouchedMemory(d);
    }
    assert forall d, e {:trigger Separate(d.Blocks(), e.Blocks())} :: d in cs && e in cs && d != e ==>
      old(Separate(d.Blocks(), e.Blocks()));
    HeadOfBlock(s, block.page, PageOf(ptr));
  }

  /** `kfree` on a pointer to a cell: the search from the page pointed into ends at the block's head,
      whose descriptor is the block, and the cell is freed in it. */
  method KFreeCell(ghost cs: set<SizeClass>, c: SizeClass, a: Allocator, ptr: nat, block: SlubBlock, ghost cell: nat) returns (r: Freed)
    requires ptr == 0xffff_8000_0000_0000 + 0x1000 * block.page + block.Offset(cell) < 0x1_0000_0000_0000_0000
    requires AllOk(cs, a) && c in cs && block in c.Blocks() && cell in block.live
    requires forall d :: d in cs && d != c ==> d.index != c.index
    modifies c`partial, c`full, block, block.words, a.pd, a.freelist, a.count
    ensures r == old(c.Outcome(block)) && block.live == old(block.live) - {cell} && c.KeepsRetired()
    ensures c.Pushed(block, cell) && (r == Kept ==> a.Model() == old(a.Model()))
    ensures r == SlabReturned ==> a.Model() == GivenBack(old(a.Model()), block.page)
    ensures r == Kept || r == SlabReturned ==> AllOk(cs, a) && RetiredStay(cs)
    ensures r == SlabReturned ==> B.Returned(old(a.Model()), a.Model(), block.page, c.index)
  {
    assert c.Holds(a);
    GivenBackIsReturned(a.Model(), block.page, c.index);
    var head := FindBlock(cs, c, a, ptr, block, cell);
    r := FreeAmong(cs, c, a, block, ToPhys(ptr) - 0x1000 * head, cell);
  }
}
