/** What the buddy allocator guarantees over every run of legal calls. */
module BuddyTheorems {
  import opened Bits
  import opened Sequences
  import opened Wrappers
  import opened Buddy

  // ---- runs ----

  datatype Op = Alloc(order: nat, pt: PageType) | Dealloc(b: nat)

  /** Callers never mark a block free or tail, and only return heads of blocks in use. */
  predicate Legal(s: State, op: Op)
    requires Wf(s)
  {
    match op
    case Alloc(_, pt) => pt != Free && pt != Tails
    case Dealloc(b) => Head(s, b) && s.pd[b].flag != Free
  }

  /** A block in use is on no list, so it may be named as the block being returned. */
  lemma InUseIsLoose(s: State, b: nat)
    requires Valid(s) && Head(s, b) && s.pd[b].flag != Free
    ensures Inv(s, {b})
  {
  }

  /** Back to no loose block once a taken block is marked as in use. */
  lemma TakenIsSettled(s: State, b: nat)
    requires Inv(s, {b}) && Head(s, b) && s.pd[b].flag != Free
    ensures Valid(s)
  {
  }

  function Step(s: State, op: Op): (t: State)
    requires Valid(s) && Legal(s, op)
    ensures SameRegion(s, t) && Valid(t)
  {
    match op
    case Alloc(order, pt) =>
      var (t, r) := Allocate(s, order, pt);
      if r.Some? then TakenIsSettled(t, r.value); t else t
    case Dealloc(b) =>
      InUseIsLoose(s, b);
      DeallocateBlock(s, b)
  }

  predicate LegalRun(s: State, ops: seq<Op>)
    requires Valid(s)
    decreases |ops|
  {
    ops == [] || (Legal(s, ops[0]) && LegalRun(Step(s, ops[0]), ops[1..]))
  }

  function Run(s: State, ops: seq<Op>): (t: State)
    requires Valid(s) && LegalRun(s, ops)
    ensures Valid(t) && SameRegion(s, t)
    decreases |ops|
  {
    if ops == [] then s else Run(Step(s, ops[0]), ops[1..])
  }

  // ---- free memory by flags and by lists ----

  /** Membership of the free lists is what the descriptor flags say. */
  lemma FreeByFlag(s: State, j: int)
    requires Valid(s) && s.lo <= j < s.hi
    ensures IsFree(s, j) <==> exists h :: Covers(s, h, j) && s.pd[h].flag == Free
  {
    if h: nat, o: nat :| Listed(s, h, o) && h <= j < h + Pow2(o) {
      assert Covers(s, h, j);
    }
    if h :| Covers(s, h, j) && s.pd[h].flag == Free {
      assert Listed(s, h, s.pd[h].order);
    }
  }

  // ---- completeness ----

  /** `[i, i + 2^o)` is a naturally aligned managed run without a page in use. */
  ghost predicate FreeRun(s: State, i: nat, o: nat) {
    && Aligned(i, o) && s.lo <= i && i + Pow2(o) <= s.hi
    && forall j {:trigger IsFree(s, j)} :: i <= j < i + Pow2(o) ==> IsFree(s, j)
  }

  lemma ListedBlockOf(s: State, j: nat) returns (h: nat, k: nat)
    requires IsFree(s, j)
    ensures Listed(s, h, k) && h <= j < h + Pow2(k)
  {
    h, k :| Listed(s, h, k) && h <= j < h + Pow2(k);
  }

  /** Eager coalescing: an aligned run of free pages always lies inside a single free block. */
  lemma {:induction false} FreeRunInOneBlock(s: State, i: nat, o: nat) returns (h: nat, k: nat)
    requires Valid(s) && o <= MAX_ORDER && FreeRun(s, i, o)
    ensures o <= k && Listed(s, h, k) && h <= i < h + Pow2(k)
    decreases o
  {
    if o == 0 {
      h, k := ListedBlockOf(s, i);
    } else {
      var half := o - 1;
      HalfRuns(s, i, half);
      h, k := FreeRunInOneBlock(s, i, half);
      var h2, k2 := FreeRunInOneBlock(s, i + Pow2(half), half);
      if k == half {
        NoTwinBlocks(s, i, half, h, h2, k2);
        h, k := h2, k2;
      }
    }
  }

  lemma HalvesAligned(i: nat, o: nat)
    requires Aligned(i, o + 1)
    ensures Aligned(i, o) && Aligned(i + Pow2(o), o)
  {
    AlignedWeaken(i, o, o + 1);
    AlignedPow2(o, o);
    AlignedSum(i, Pow2(o), o);
  }

  lemma HalfRuns(s: State, i: nat, o: nat)
    requires FreeRun(s, i, o + 1)
    ensures FreeRun(s, i, o) && FreeRun(s, i + Pow2(o), o)
  {
    HalvesAligned(i, o);
  }

  /** Aligned blocks of one size that overlap are the same. */
  lemma SameBlock(h: nat, i: nat, o: nat)
    requires Aligned(h, o) && Aligned(i, o) && h <= i < h + Pow2(o)
    ensures h == i
  {
    if h < i {
      AlignedGap(h, i, o);
    }
  }

  /** The two halves of an aligned run are not two listed blocks: they would have been merged. */
  lemma NotBothHalves(s: State, i: nat, o: nat)
    requires Valid(s) && o < MAX_ORDER && Aligned(i, o + 1)
    ensures !(Listed(s, i, o) && Listed(s, i + Pow2(o), o))
  {
    AlignedWeaken(i, o, o + 1);
    BuddyArithmetic(i, o);
  }

  /** When the first half of an aligned run is a listed block, the block that holds the second holds both. */
  lemma NoTwinBlocks(s: State, i: nat, o: nat, h: nat, h2: nat, k2: nat)
    requires Valid(s) && o < MAX_ORDER && Aligned(i, o + 1)
    requires Listed(s, h, o) && h <= i < h + Pow2(o)
    requires Listed(s, h2, k2) && o <= k2 && h2 <= i + Pow2(o) < h2 + Pow2(k2)
    ensures o < k2 && h2 <= i < h2 + Pow2(k2)
  {
    assert Aligned(h, o) && Aligned(h2, k2);
    NotBothHalves(s, i, o);
    HalvesAligned(i, o);
    SameBlock(h, i, o);
    if k2 == o {
      SameBlock(h2, i + Pow2(o), o);
    }
    AlignedCovers(h2, k2, i, o);
  }

  /** Allocation fails exactly when no aligned run of the wanted size is free. */
  lemma AllocationIsComplete(s: State, order: nat, pt: PageType)
    requires Valid(s) && pt != Tails && order <= MAX_ORDER
    ensures Allocate(s, order, pt).1.None? <==> !exists i: nat :: FreeRun(s, i, order)
  {
    var (t, r) := Allocate(s, order, pt);
    if r.Some? {
      var b := r.value;
      assert Head(t, b);
      BlockInside(t, b);
      assert FreeRun(s, b, order);
    } else if i: nat :| FreeRun(s, i, order) {
      var h, k := FreeRunInOneBlock(s, i, order);
      assert false;
    }
  }

  /** The first block of the first list, from `order` on, that is not empty. */
  function FirstFront(lists: seq<seq<nat>>, order: nat): Option<nat>
    requires |lists| == MAX_ORDER + 1
    decreases MAX_ORDER + 1 - order
  {
    if order > MAX_ORDER then None
    else if lists[order] != [] then Some(lists[order][0])
    else FirstFront(lists, order + 1)
  }

  lemma ResultOfSplitting(s: State, order: nat, pt: PageType)
    requires Valid(s) && pt != Tails && order <= MAX_ORDER && s.lists[order] == []
    ensures Allocate(s, order, pt).1 == Allocate(s, order + 1, Free).1
  {
    AllocateBySplitting(s, order, pt);
  }

  lemma ResultFromFront(s: State, order: nat, pt: PageType)
    requires Valid(s) && pt != Tails && order <= MAX_ORDER && s.lists[order] != []
    ensures Allocate(s, order, pt).1 == Some(s.lists[order][0])
  {
    AllocateFromFront(s, order, pt);
  }

  /** What is handed out is the front of a list: splitting keeps the lower half of the block popped. */
  lemma {:induction false} AllocateTakesAFront(s: State, order: nat, pt: PageType)
    requires Valid(s) && pt != Tails
    ensures Allocate(s, order, pt).1 == FirstFront(s.lists, order)
    decreases MAX_ORDER + 1 - order
  {
    if order <= MAX_ORDER {
      if s.lists[order] == [] {
        ResultOfSplitting(s, order, pt);
        AllocateTakesAFront(s, order + 1, Free);
      } else {
        ResultFromFront(s, order, pt);
      }
    }
  }

  // ---- canonical form ----

  /** The block of twice the size that contains block (i, o). */
  function Parent(i: nat, o: nat): nat {
    And(i, BuddyOf(i, o))
  }

  /** The free blocks are exactly the maximal aligned runs of free pages. */
  lemma FreeBlocksAreMaximalRuns(s: State, i: nat, o: nat)
    requires Valid(s)
    ensures Listed(s, i, o) <==>
            o <= MAX_ORDER && FreeRun(s, i, o) && (o < MAX_ORDER ==> !FreeRun(s, Parent(i, o), o + 1))
  {
    if Listed(s, i, o) {
      BlockInside(s, i);
      assert FreeRun(s, i, o);
      if o < MAX_ORDER && FreeRun(s, Parent(i, o), o + 1) {
        BuddyArithmetic(i, o);
        var h, k := FreeRunInOneBlock(s, Parent(i, o), o + 1);
        AlignedNested(h, k, Parent(i, o), o + 1);
        FreeOnce(s, {}, h, k, i, o, i);
      }
    } else if o <= MAX_ORDER && FreeRun(s, i, o) {
      var h, k := FreeRunInOneBlock(s, i, o);
      if k == o {
        if h < i {
          AlignedGap(h, i, o);
        }
        assert false;
      }
      ParentRunIsFree(s, i, o, h, k);
    }
  }

  lemma ParentRunIsFree(s: State, i: nat, o: nat, h: nat, k: nat)
    requires Valid(s) && Aligned(i, o) && Listed(s, h, k) && o < k && h <= i < h + Pow2(k)
    ensures FreeRun(s, Parent(i, o), o + 1)
  {
    var p := Parent(i, o);
    BuddyArithmetic(i, o);
    if p < h {
      AlignedWeaken(h, o + 1, k);
      AlignedGap(p, h, o + 1);
    }
    AlignedNested(h, k, p, o + 1);
    BlockInside(s, h);
    forall j | p <= j < p + Pow2(o + 1)
      ensures IsFree(s, j)
    {
      assert Listed(s, h, k);
    }
  }

  ghost predicate SameFreePages(s: State, t: State) {
    forall j {:trigger IsFree(s, j)} {:trigger IsFree(t, j)} :: IsFree(s, j) <==> IsFree(t, j)
  }

  /** Two states of the same region with the same free pages hold the same free blocks of every
      order, whatever calls led to them, and the same counters. */
  lemma CanonicalForm(s: State, t: State)
    requires Valid(s) && Valid(t) && SameRegion(s, t) && SameFreePages(s, t)
    ensures forall i: nat, o: nat :: Listed(s, i, o) <==> Listed(t, i, o)
    ensures s.count == t.count
  {
    forall i: nat, o: nat
      ensures Listed(s, i, o) <==> Listed(t, i, o)
    {
      FreeBlocksAreMaximalRuns(s, i, o);
      FreeBlocksAreMaximalRuns(t, i, o);
      assert FreeRun(s, i, o) <==> FreeRun(t, i, o);
      assert FreeRun(s, Parent(i, o), o + 1) <==> FreeRun(t, Parent(i, o), o + 1);
    }
    forall o: nat | o <= MAX_ORDER
      ensures s.count[o] == t.count[o]
    {
      forall x: nat
        ensures x in s.lists[o] <==> x in t.lists[o]
      {
        assert Listed(s, x, o) <==> Listed(t, x, o);
      }
      SameMembersSameLength(s.lists[o], t.lists[o]);
    }
  }

  /** With nothing in use, all memory has coalesced into blocks of the largest order. */
  lemma AllFreeMeansAllMaximal(s: State, i: nat, o: nat)
    requires Valid(s) && Listed(s, i, o)
    requires forall j :: s.lo <= j < s.hi ==> IsFree(s, j)
    ensures o == MAX_ORDER
  {
    if o < MAX_ORDER {
      BuddyFacts(s, i, o);
      assert FreeRun(s, Parent(i, o), o + 1);
    }
    FreeBlocksAreMaximalRuns(s, i, o);
  }

  // ---- inverse ----

  /** Returning the block just allocated undoes the whole chain of splits. */
  lemma FreeUndoesAllocate(s: State, order: nat, pt: PageType)
    requires Valid(s) && pt != Free && pt != Tails && Allocate(s, order, pt).1.Some?
    ensures var (t, r) := Allocate(s, order, pt); Inv(t, {r.value}) && Head(t, r.value)
    ensures var (t, r) := Allocate(s, order, pt); var u := DeallocateBlock(t, r.value);
      && SameRegion(s, u) && Valid(u)
      && (forall i: nat, o: nat :: Listed(u, i, o) <==> Listed(s, i, o))
      && u.count == s.count
      && (forall j :: 0 <= j < |s.pd| ==> u.pd[j].flag == s.pd[j].flag)
      && (forall j :: 0 <= j < |s.pd| && s.pd[j].flag != Tails ==> u.pd[j] == s.pd[j])
  {
    var (t, r) := Allocate(s, order, pt);
    var b := r.value;
    var u := DeallocateBlock(t, b);
    assert SameFreePages(s, u);
    CanonicalForm(s, u);
    forall j | 0 <= j < |s.pd|
      ensures u.pd[j].flag == s.pd[j].flag && (s.pd[j].flag != Tails ==> u.pd[j] == s.pd[j])
    {
      if IsFree(s, j) {
        SameListsSameHeads(s, u, j);
      } else {
        assert !IsFree(t, j) && !IsFree(u, j);
      }
    }
  }

  /** The descriptors of free pages follow from the lists, but for the order a tail page was left with. */
  lemma SameListsSameHeads(s: State, u: State, j: nat)
    requires Valid(s) && Valid(u) && SameRegion(s, u) && j < |s.pd| && IsFree(s, j)
    requires forall i: nat, o: nat :: Listed(u, i, o) <==> Listed(s, i, o)
    ensures u.pd[j].flag == s.pd[j].flag && (s.pd[j].flag != Tails ==> u.pd[j] == s.pd[j])
  {
    var h: nat, o: nat :| Listed(s, h, o) && h <= j < h + Pow2(o);
    assert Listed(u, h, o);
    assert Covers(s, h, j) && Covers(u, h, j);
  }

  // ---- conservation ----

  /** Page `j` lies in the block at position `a` of list `k`. */
  predicate At(s: State, k: int, a: int, j: nat) {
    0 <= k < |s.lists| && 0 <= a < |s.lists[k]| && s.lists[k][a] <= j < s.lists[k][a] + Pow2(k)
  }

  /** Some block before position `m` of list `o`, lists taken in order, holds page `j`. */
  ghost predicate HeldBefore(s: State, o: nat, m: nat, j: nat) {
    exists k, a :: At(s, k, a, j) && (k < o || (k == o && a < m))
  }

  ghost function PagesBefore(s: State, o: nat, m: nat): set<nat> {
    set j: nat | s.lo <= j < s.hi && HeldBefore(s, o, m, j)
  }

  lemma HeldBeforeNext(s: State, o: nat, m: nat, j: nat)
    requires Valid(s) && o < |s.lists| && 0 < m <= |s.lists[o]|
    ensures HeldBefore(s, o, m, j) <==> HeldBefore(s, o, m - 1, j) || At(s, o, m - 1, j)
    ensures !(HeldBefore(s, o, m - 1, j) && At(s, o, m - 1, j))
  {
    if At(s, o, m - 1, j) {
      assert HeldBefore(s, o, m, j);
      if k, a :| At(s, k, a, j) && (k < o || (k == o && a < m - 1)) {
        assert Listed(s, s.lists[k][a], k) && Listed(s, s.lists[o][m - 1], o);
        FreeOnce(s, {}, s.lists[k][a], k, s.lists[o][m - 1], o, j);
        assert false;
      }
    }
  }

  lemma PagesBeforeNext(s: State, o: nat, m: nat)
    requires Valid(s) && o < |s.lists| && 0 < m <= |s.lists[o]|
    ensures var block := Interval(s.lists[o][m - 1], Pow2(o));
      PagesBefore(s, o, m) == PagesBefore(s, o, m - 1) + block && PagesBefore(s, o, m - 1) !! block
  {
    var b := s.lists[o][m - 1];
    var block := Interval(b, Pow2(o));
    assert Listed(s, b, o);
    BlockInside(s, b);
    forall j: nat
      ensures j in PagesBefore(s, o, m) <==> j in PagesBefore(s, o, m - 1) || j in block
      ensures !(j in PagesBefore(s, o, m - 1) && j in block)
    {
      HeldBeforeNext(s, o, m, j);
    }
  }

  lemma OneMoreBlock(s: State, o: nat, m: nat)
    requires Valid(s) && o < |s.lists| && 0 < m <= |s.lists[o]|
    ensures |PagesBefore(s, o, m)| == |PagesBefore(s, o, m - 1)| + Pow2(o)
  {
    PagesBeforeNext(s, o, m);
    var block := Interval(s.lists[o][m - 1], Pow2(o));
    assert |PagesBefore(s, o, m - 1) + block| == |PagesBefore(s, o, m - 1)| + |block|;
  }

  lemma NextList(s: State, o: nat)
    requires Valid(s) && 0 < o <= |s.lists|
    ensures PagesBefore(s, o, 0) == PagesBefore(s, o - 1, |s.lists[o - 1]|)
  {
    forall j: nat
      ensures HeldBefore(s, o, 0, j) <==> HeldBefore(s, o - 1, |s.lists[o - 1]|, j)
    {
    }
  }

  lemma OneMore(m: nat, p: nat)
    requires m > 0
    ensures m * p == (m - 1) * p + p
  {
  }

  lemma {:induction false} PagesBeforeSize(s: State, o: nat, m: nat)
    requires Valid(s) && if o < |s.lists| then m <= |s.lists[o]| else o == |s.lists| && m == 0
    ensures |PagesBefore(s, o, m)| == Weight(s.lists, o) + m * Pow2(o)
    decreases o, m
  {
    if m > 0 {
      PagesBeforeSize(s, o, m - 1);
      OneMoreBlock(s, o, m);
      OneMore(m, Pow2(o));
    } else if o > 0 {
      PagesBeforeSize(s, o - 1, |s.lists[o - 1]|);
      NextList(s, o);
    } else {
      assert PagesBefore(s, 0, 0) == {};
    }
  }

  /** The sizes of the listed blocks add up to the number of free pages: no page is on two lists. */
  lemma FreePagesAreCounted(s: State)
    requires Valid(s)
    ensures FreePages(s) == |set j: nat | s.lo <= j < s.hi && IsFree(s, j)|
  {
    var n := |s.lists|;
    PagesBeforeSize(s, n, 0);
    forall j: nat
      ensures HeldBefore(s, n, 0, j) <==> IsFree(s, j)
    {
      if k, a :| At(s, k, a, j) {
        assert Listed(s, s.lists[k][a], k);
      }
      if h: nat, o: nat :| Listed(s, h, o) && h <= j < h + Pow2(o) {
        var a :| 0 <= a < |s.lists[o]| && s.lists[o][a] == h;
        assert At(s, o, a, j);
      }
    }
    assert PagesBefore(s, n, 0) == set j: nat | s.lo <= j < s.hi && IsFree(s, j);
  }

  lemma {:induction false} ListWeight(lists: seq<seq<nat>>, n: nat, o: nat)
    requires o < n <= |lists|
    ensures |lists[o]| * Pow2(o) <= Weight(lists, n)
  {
    if o < n - 1 {
      ListWeight(lists, n - 1, o);
    }
  }

  lemma AtLeastOnePageEach(n: nat, size: nat)
    requires size >= 1
    ensures n <= n * size
  {
  }

  lemma FreePagesInRegion(s: State)
    requires Valid(s)
    ensures FreePages(s) <= s.hi - s.lo
  {
    FreePagesAreCounted(s);
    var free := set j: nat | s.lo <= j < s.hi && IsFree(s, j);
    SubsetIsSmaller(free, Interval(s.lo, s.hi - s.lo));
  }

  lemma ListInRegion(s: State, o: nat)
    requires Valid(s) && o <= 9
    ensures |s.lists[o]| <= s.hi - s.lo
  {
    FreePagesInRegion(s);
    ListWeight(s.lists, |s.lists|, o);
    AtLeastOnePageEach(|s.lists[o]|, Pow2(o));
  }

  /** On fewer than 2^32 pages no counter ever wraps: each is the length of its list. */
  lemma CountersAreExact(s: State, o: nat)
    requires Valid(s) && s.hi - s.lo < 0x1_0000_0000 && o <= 9
    ensures s.count[o] == |s.lists[o]| <= s.hi - s.lo
  {
    ListInRegion(s, o);
  }

  lemma {:induction false} SubsetIsSmaller(a: set<nat>, b: set<nat>)
    requires a <= b
    ensures |a| <= |b|
    decreases a
  {
    if a != {} {
      var x :| x in a;
      SubsetIsSmaller(a - {x}, b - {x});
    }
  }

  /** Pages the caller holds after a run: what it was given minus what it gave back. */
  function Held(s: State, ops: seq<Op>): int
    requires Valid(s) && LegalRun(s, ops)
    decreases |ops|
  {
    if ops == [] then 0
    else
      var rest := Held(Step(s, ops[0]), ops[1..]);
      match ops[0]
      case Alloc(order, pt) => rest + if Allocate(s, order, pt).1.Some? then Pow2(order) else 0
      case Dealloc(b) => rest - Pow2(s.pd[b].order)
  }

  /** Over every run, free pages plus held pages is constant. */
  lemma {:induction false} PagesAreConserved(s: State, ops: seq<Op>)
    requires Valid(s) && LegalRun(s, ops)
    ensures FreePages(Run(s, ops)) + Held(s, ops) == FreePages(s)
    decreases |ops|
  {
    if ops != [] {
      PagesAreConserved(Step(s, ops[0]), ops[1..]);
      if ops[0].Dealloc? {
        InUseIsLoose(s, ops[0].b);
      }
    }
  }
}
