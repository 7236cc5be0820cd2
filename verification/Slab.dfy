/** One slab block: cells of equal size in a run of pages, the free ones threaded into a list
    through the memory they occupy. Memory is seen as 32-bit words; the owner of a live cell may
    write anything into it. */
module Slab {
  import opened Sequences
  import opened Wrappers

  const CELL_NULL: nat := 0xffff_ffff
  const IN_USE_MAX: nat := 0xffff

  /** `in_use` is a 16-bit counter. */
  function Wrap16(n: int): nat {
    n % 0x1_0000
  }

  /** Counting modulo 2^16 goes up and down in step. */
  lemma CounterSteps(n: int)
    ensures Wrap16(Wrap16(n) + 1) == Wrap16(n + 1) && Wrap16(Wrap16(n) as int - 1) == Wrap16(n - 1)
  {
  }

  /** `k * w`, by repeated addition. */
  function Times(k: nat, w: nat): nat {
    if k == 0 then 0 else Times(k - 1, w) + w
  }

  lemma {:induction false} TimesIsProduct(k: nat, w: nat)
    ensures Times(k, w) == k * w
  {
    if k > 0 {
      TimesIsProduct(k - 1, w);
    }
  }

  /** Cells of one size at different indices do not overlap. */
  lemma {:induction false} CellsDoNotOverlap(j: nat, k: nat, w: nat)
    requires j < k
    ensures Times(j, w) + w <= Times(k, w)
  {
    if j < k - 1 {
      CellsDoNotOverlap(j, k - 1, w);
    }
  }

  /** The slab view of a descriptor overlays the free-block view: bytes 2-3 are `in_use` and bytes
      4-7 `free_offset`, where the free block keeps its 8-byte back link from byte 2 on. */
  function InUseOverlay(prev: nat): nat {
    prev % 0x1_0000
  }

  function FreeOffsetOverlay(prev: nat): nat {
    prev / 0x1_0000 % 0x1_0000_0000
  }

  class SlubBlock {
    const page: nat           // index of the block's first page
    const cellWords: nat      // object size in 32-bit words
    const cells: nat          // how many cells the pages hold
    const words: array<nat>   // the pages of the block
    var inUse: nat
    var freeOffset: nat

    ghost var chain: seq<nat> // free cells in list order
    ghost var live: set<nat>  // cells handed out
    ghost var retired: bool   // the counter was once overwritten with IN_USE_MAX

    /** Index of a cell's first word. */
    function Word(cell: nat): nat {
      Times(cell, cellWords)
    }

    /** Byte offset of a cell. */
    function Offset(cell: nat): nat {
      4 * Word(cell)
    }

    /** What the list stores to refer to position `i` of the chain. */
    ghost function Link(c: seq<nat>, i: nat): nat {
      if i < |c| then Offset(c[i]) else CELL_NULL
    }

    ghost predicate Shape() {
      cellWords > 0 && cells > 0 && words.Length == Word(cells) && 4 * words.Length < CELL_NULL
    }

    /** In memory `w`, the first word of the cell at position `i` of `c` refers to the next one. */
    ghost predicate LinksAt(w: seq<nat>, c: seq<nat>, i: nat)
      requires i < |c|
    {
      c[i] < cells && Word(c[i]) < |w| && w[Word(c[i])] == Link(c, i + 1)
    }

    /** Following the links from the first cell of `c` visits all of `c` and ends in the null offset. */
    ghost predicate Threads(w: seq<nat>, c: seq<nat>) {
      forall i: nat {:trigger LinksAt(w, c, i)} :: i < |c| ==> LinksAt(w, c, i)
    }

    /** The first word of cell `j` holds the offset of the next cell. */
    ghost predicate RefersOn(w: seq<nat>, j: nat) {
      Word(j) < |w| && w[Word(j)] == Offset(j + 1)
    }

    /** Every cell is on chain `c`, once, or in `l`. */
    ghost predicate Accounted(c: seq<nat>, l: set<nat>) {
      && NoDup(c)
      && (forall k: nat {:trigger k in l} {:trigger k in c} :: k < cells <==> k in c || k in l)
      && (forall k: nat {:trigger k in l} {:trigger k in c} :: !(k in c && k in l))
    }

    ghost predicate Valid()
      reads this, words
    {
      Shape() && freeOffset == Link(chain, 0) && Threads(words[..], chain) && Accounted(chain, live)
    }

    /** The chain runs through all cells in address order. */
    ghost predicate InOrder(c: seq<nat>) {
      |c| == cells && forall i {:trigger c[i]} :: 0 <= i < cells ==> c[i] == i
    }

    /** The 16-bit counter is the number of live cells until the block is first retired, when it is set
        to the largest number it can hold; from then on it is off by a constant. */
    ghost predicate Counted()
      reads this
    {
      inUse == (|live| + if retired then 0xffff - cells else 0) % 0x1_0000
    }

    /** A page run just taken from the front of a free list, seen as a slab block. */
    constructor (page: nat, cellWords: nat, cells: nat, words: array<nat>, prev: nat)
      ensures this.page == page && this.cellWords == cellWords && this.cells == cells && this.words == words
      ensures inUse == InUseOverlay(prev) && freeOffset == FreeOffsetOverlay(prev)
      ensures chain == [] && live == {} && !retired
    {
      this.page, this.cellWords, this.cells, this.words := page, cellWords, cells, words;
      inUse, freeOffset := InUseOverlay(prev), FreeOffsetOverlay(prev);
      chain, live, retired := [], {}, false;
    }

    lemma CellFits(k: nat)
      requires Shape() && k <= cells
      ensures Word(k) < words.Length <==> k < cells
      ensures k < cells ==> Word(k) + cellWords <= words.Length
      ensures Word(cells) > 0
    {
      CellsDoNotOverlap(0, cells, cellWords);
      if k < cells {
        CellsDoNotOverlap(k, cells, cellWords);
      }
    }

    lemma WriteKeepsEarlier(w: seq<nat>, v: seq<nat>, k: nat)
      requires cellWords > 0 && Word(k) < |w| == |v| && v == w[Word(k) := v[Word(k)]]
      requires forall j: nat {:trigger RefersOn(w, j)} :: j < k ==> RefersOn(w, j)
      ensures forall j: nat {:trigger RefersOn(v, j)} :: j < k ==> RefersOn(v, j)
    {
      forall j: nat | j < k
        ensures RefersOn(v, j)
      {
        assert RefersOn(w, j);
        CellsDoNotOverlap(j, k, cellWords);
      }
    }

    /** Threads all cells in address order. It leaves `in_use` and `free_offset` alone, so the
        block is in order exactly when both were zero. */
    method MakeSlabs()
      requires Shape() && live == {} && !retired
      modifies this`chain, words
      ensures InOrder(chain)
      ensures Valid() <==> freeOffset == 0
      ensures Counted() <==> inUse == 0
    {
      var limit := 4 * words.Length;
      var objectSize := 4 * cellWords;
      var index := 0;
      ghost var k := 0;
      CellFits(0);
      while index < limit
        invariant k <= cells && index == Offset(k) && (k > 0 || index < limit)
        invariant forall j: nat {:trigger RefersOn(words[..], j)} :: j < k ==> RefersOn(words[..], j)
        decreases cells - k
      {
        CellFits(k);
        ghost var w := words[..];
        words[index / 4] := index + objectSize;
        WriteKeepsEarlier(w, words[..], k);
        index := index + objectSize;
        k := k + 1;
      }
      CellFits(k);
      index := index - objectSize;
      ghost var w := words[..];
      words[index / 4] := CELL_NULL;
      WriteKeepsEarlier(w, words[..], k - 1);
      chain := seq(cells, i => i);
      AllCellsAccounted(chain);
      AllCellsThreaded(words[..], chain);
    }

    lemma AllCellsAccounted(c: seq<nat>)
      requires InOrder(c)
      ensures Accounted(c, {})
    {
      forall k: nat
        ensures k < cells <==> k in c
      {
        if k < cells {
          assert c[k] == k;
        }
      }
    }

    lemma AllCellsThreaded(w: seq<nat>, c: seq<nat>)
      requires cells > 0 && InOrder(c)
      requires forall j: nat {:trigger RefersOn(w, j)} :: j < cells - 1 ==> RefersOn(w, j)
      requires Word(cells - 1) < |w| && w[Word(cells - 1)] == CELL_NULL
      ensures Threads(w, c) && Link(c, 0) == 0
    {
      assert c[0] == 0;
      forall i: nat | i < |c|
        ensures LinksAt(w, c, i)
      {
        assert c[i] == i;
        if i + 1 < cells {
          assert RefersOn(w, i) && c[i + 1] == i + 1;
        }
      }
    }

    lemma ThreadsTail(w: seq<nat>, c: seq<nat>, l: set<nat>)
      requires c != [] && Threads(w, c) && Accounted(c, l)
      ensures c[0] < cells && Word(c[0]) < |w| && w[Word(c[0])] == Link(c[1..], 0)
      ensures Threads(w, c[1..]) && Accounted(c[1..], l + {c[0]})
    {
      var r := c[1..];
      assert c == [c[0]] + r;
      assert forall k: nat :: k in c <==> k == c[0] || k in r;
      assert LinksAt(w, c, 0);
      forall i: nat | i < |r|
        ensures LinksAt(w, r, i)
      {
        assert LinksAt(w, c, i + 1);
      }
    }

    lemma AccountedPush(c: seq<nat>, l: set<nat>, cell: nat)
      requires Accounted(c, l) && cell in l
      ensures Accounted([cell] + c, l - {cell})
    {
      var r := [cell] + c;
      assert forall k: nat :: k in r <==> k == cell || k in c;
    }

    /** Writing inside a cell that is not on the chain breaks no link. */
    lemma ThreadsKept(w: seq<nat>, c: seq<nat>, l: set<nat>, cell: nat, at: nat, value: nat)
      requires Threads(w, c) && Accounted(c, l) && cell in l && Word(cell) <= at < Word(cell) + cellWords && at < |w|
      ensures Threads(w[at := value], c)
    {
      var v := w[at := value];
      forall i: nat | i < |c|
        ensures LinksAt(v, c, i)
      {
        assert LinksAt(w, c, i) && c[i] in c;
        if c[i] < cell {
          CellsDoNotOverlap(c[i], cell, cellWords);
        } else {
          CellsDoNotOverlap(cell, c[i], cellWords);
        }
      }
    }

    lemma ThreadsPush(w: seq<nat>, c: seq<nat>, cell: nat)
      requires Threads(w, c) && cell < cells && Word(cell) < |w| && w[Word(cell)] == Link(c, 0)
      ensures Threads(w, [cell] + c)
    {
      var r := [cell] + c;
      forall i: nat | i < |r|
        ensures LinksAt(w, r, i)
      {
        assert i > 0 ==> LinksAt(w, c, i - 1);
      }
    }

    lemma NullIffEmpty()
      requires Valid()
      ensures freeOffset == CELL_NULL <==> chain == []
    {
      if chain != [] {
        assert LinksAt(words[..], chain, 0);
        CellFits(chain[0]);
      }
    }

    /** Hands out the first cell of the chain, or nothing when every cell is live. */
    method AllocInOneBlock() returns (obj: Option<nat>, ghost cell: nat)
      requires Valid()
      modifies this`inUse, this`freeOffset, this`chain, this`live
      ensures Valid() && (old(Counted()) ==> Counted())
      ensures obj.None? <==> old(chain) == []
      ensures obj.None? ==> unchanged(this) && forall k: nat :: k < cells ==> k in live
      ensures obj.Some? ==>
                && old(chain) == [cell] + chain && obj.value == Offset(cell)
                && cell < cells && cell !in old(live) && live == old(live) + {cell}
    {
      NullIffEmpty();
      if freeOffset == CELL_NULL {
        return None, 0;
      }
      cell := chain[0];
      ThreadsTail(words[..], chain, live);
      assert freeOffset / 4 == Word(cell);
      obj := Some(freeOffset);
      freeOffset := words[freeOffset / 4];
      CounterSteps(|live| + if retired then IN_USE_MAX - cells else 0);
      inUse := Wrap16(inUse + 1);
      chain := chain[1..];
      assert |live + {cell}| == |live| + 1;
      live := live + {cell};
    }

    /** Puts a live cell at the front of the chain, through its first word. */
    method FreeInOneBlock(offset: nat, ghost cell: nat)
      requires Valid() && cell in live && offset == Offset(cell)
      modifies this`inUse, this`freeOffset, this`chain, this`live, words
      ensures Valid() && (old(Counted()) ==> Counted())
      ensures chain == [cell] + old(chain) && live == old(live) - {cell}
      ensures freeOffset == offset
      ensures Word(cell) < words.Length && words[..] == old(words[..])[Word(cell) := old(freeOffset)]
    {
      CellFits(cell);
      ThreadsKept(words[..], chain, live, cell, Word(cell), freeOffset);
      AccountedPush(chain, live, cell);
      ghost var w := words[..];
      words[offset / 4] := freeOffset;
      assert words[..] == w[Word(cell) := freeOffset];
      ThreadsPush(words[..], chain, cell);
      freeOffset := offset;
      CounterSteps(|live| + if retired then IN_USE_MAX - cells else 0);
      inUse := Wrap16(inUse as int - 1);
      chain := [cell] + chain;
      assert |live - {cell}| == |live| - 1;
      live := live - {cell};
    }

    /** The owner of a live cell writes into it; no link of the chain is touched. */
    method OwnerWrites(ghost cell: nat, at: nat, value: nat)
      requires Valid() && cell in live && Word(cell) <= at < Word(cell) + cellWords
      modifies words
      ensures Valid()
      ensures at < words.Length && words[..] == old(words[..])[at := value]
    {
      CellFits(cell);
      ThreadsKept(words[..], chain, live, cell, at, value);
      ghost var w := words[..];
      words[at] := value;
      assert words[..] == w[at := value];
    }

    /** Free and live cells together are all cells of the block. */
    lemma CellsAreConserved()
      requires Valid()
      ensures |chain| + |live| == cells
    {
      NoDupLength(chain);
      assert forall k: nat :: k in Elements(chain) <==> k in chain;
      assert Interval(0, cells) == Elements(chain) + live;
    }
  }
}
