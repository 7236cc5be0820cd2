/** Freeing by address: from any page of a block back to its head, then by the head's type. */
module Kfree {
  import opened Bits
  import opened Buddy
  import opened BuddyTheorems
  import opened BuddyAllocator

  datatype Outcome =
    | PagesReturned
    | ToSlab(head: nat)       // handed to the slab allocator that owns the block
    | WrongAllocator          // panic: not the start of a page block
    | DoubleFree              // panic
    | InvalidPointer          // panic

  /** The physical address behind a kernel pointer: bits 47 to 63 are cleared. */
  function ToPhys(ptr: nat): nat
    requires ptr < 0x1_0000_0000_0000_0000
  {
    ptr % 0x8000_0000_0000
  }

  /** A pointer is its low 47 bits, the physical address, under whatever bits are above. */
  lemma PointerParts(ptr: nat, high: nat, phys: nat)
    requires ptr < 0x1_0000_0000_0000_0000 && ptr == 0x8000_0000_0000 * high + phys && phys < 0x8000_0000_0000
    ensures ToPhys(ptr) == phys
  {
  }

  /** Translating the kernel's pointer to a physical address gives that address back. */
  lemma KernelPointerTranslates(phys: nat)
    requires phys < 0x8000_0000_0000
    ensures ToPhys(0xffff_8000_0000_0000 + phys) == phys
  {
    PointerParts(0xffff_8000_0000_0000 + phys, 0x1_ffff, phys);
  }

  lemma PageOfPointer(ptr: nat, high: nat, page: nat, offset: nat)
    requires ptr < 0x1_0000_0000_0000_0000 && offset < 0x1000 && 0x1000 * page + offset < 0x8000_0000_0000
    requires ptr == 0x8000_0000_0000 * high + 0x1000 * page + offset
    ensures PageOf(ptr) == page
  {
    PointerParts(ptr, high, 0x1000 * page + offset);
  }

  function PageOf(ptr: nat): nat
    requires ptr < 0x1_0000_0000_0000_0000
  {
    ToPhys(ptr) / 0x1000
  }

  /** The head of the block that holds page `j`. */
  ghost function HeadOf(s: State, j: nat): (h: nat)
    requires Wf(s) && Partition(s) && s.lo <= j < s.hi
    ensures Covers(s, h, j)
  {
    assert Covered(s, j);
    var h: nat :| Covers(s, h, j);
    h
  }

  /** Every page of a block has that block's head as its head. */
  lemma HeadOfBlock(s: State, h: nat, j: nat)
    requires Wf(s) && Partition(s) && s.lo <= j < s.hi && Covers(s, h, j)
    ensures HeadOf(s, j) == h
  {
    CoverUnique(s, h, HeadOf(s, j), j);
  }

  /** From any page of a block, clearing low set bits while on tail pages stops at its head;
      `atHead` tells whether the search started there. */
  method FindHead(a: Allocator, start: nat) returns (index: nat, atHead: bool)
    requires Wf(a.Model()) && Partition(a.Model()) && a.lo <= start < a.hi
    ensures index == HeadOf(a.Model(), start)
    ensures atHead <==> index == start
  {
    ghost var s := a.Model();
    ghost var h := HeadOf(s, start);
    index, atHead := start, true;
    while a.pd[index].flag == Tails
      invariant h <= index <= start && Covers(s, h, index)
      invariant atHead <==> index == start
      decreases index
    {
      atHead := false;
      ClearLowestBitStaysInside(h, s.pd[h].order, index);
      index := And(index, index - 1);
    }
  }

  /** Only the first page of a kernel block is returned; every other managed pointer is told
      apart by the type of the block it points into. The pointer is to any byte of `page`, and its bits
      from 47 on do not matter; in a kernel pointer they are all set, and `high` is 0x1_ffff. */
  method KFree(a: Allocator, ptr: nat, ghost high: nat, ghost page: nat, ghost offset: nat) returns (outcome: Outcome)
    requires ptr < 0x1_0000_0000_0000_0000 && offset < 0x1000 && 0x1000 * page + offset < 0x8000_0000_0000
    requires ptr == 0x8000_0000_0000 * high + 0x1000 * page + offset
    requires Valid(a.Model()) && a.lo <= page < a.hi
    modifies a.pd, a.freelist, a.count
    ensures var s := old(a.Model()); var h := HeadOf(s, page);
      match s.pd[h].flag
      case Kernel => if h == page then outcome == PagesReturned else outcome == WrongAllocator
      case Slab => outcome == ToSlab(h)
      case Free => outcome == DoubleFree
      case _ => outcome == InvalidPointer
    ensures outcome == PagesReturned ==>
      Inv(old(a.Model()), {page}) && Head(old(a.Model()), page) && a.Model() == DeallocateBlock(old(a.Model()), page)
    ensures outcome != PagesReturned ==> a.Model() == old(a.Model())
  {
    PageOfPointer(ptr, high, page, offset);
    var index, allowKernel := FindHead(a, PageOf(ptr));
    match a.pd[index].flag
    case Kernel =>
      if allowKernel {
        InUseIsLoose(a.Model(), index);
        a.Deallocate(index);
        outcome := PagesReturned;
      } else {
        outcome := WrongAllocator;
      }
    case Slab => outcome := ToSlab(index);
    case Free => outcome := DoubleFree;
    case _ => outcome := InvalidPointer;
  }
}
