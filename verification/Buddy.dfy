/** The physical page allocator as a value: page descriptors, the ten free lists and the ten
    counters, and the two public operations with their recursion over orders. */
module Buddy {
  import opened Bits
  import opened Sequences
  import opened Wrappers

  const MAX_ORDER: nat := 9

  datatype PageType = Free | Kernel | Tails | Reserved | Slab | KernelMap

  /** The two fields shared by every view of a page descriptor. */
  datatype Desc = Desc(flag: PageType, order: nat)

  /** `[lo, hi)` are the page indices handed to the allocator at boot; `pd` is the descriptor array. */
  datatype State = State(lo: nat, hi: nat, pd: seq<Desc>, lists: seq<seq<nat>>, count: seq<nat>)

  /** Counters are 32-bit unsigned integers. */
  function Wrap(n: int): nat {
    n % 0x1_0000_0000
  }

  function BuddyOf(i: nat, order: nat): nat {
    Xor(i, Pow2(order))
  }

  // ---- the representation ----

  predicate Wf(s: State) {
    && |s.lists| == MAX_ORDER + 1 == |s.count|
    && s.lo <= s.hi <= |s.pd|
    && Aligned(s.lo, MAX_ORDER) && Aligned(s.hi, MAX_ORDER)
  }

  predicate Head(s: State, i: int)
    requires Wf(s)
  {
    s.lo <= i < s.hi && s.pd[i].flag != Tails
  }

  predicate Covers(s: State, i: int, j: int)
    requires Wf(s)
  {
    Head(s, i) && i <= j < i + Pow2(s.pd[i].order)
  }

  ghost predicate Covered(s: State, j: int)
    requires Wf(s)
  {
    exists i :: Covers(s, i, j)
  }

  /** The head descriptors cut the managed pages into aligned blocks of power-of-two size. */
  ghost predicate Partition(s: State)
    requires Wf(s)
  {
    && (forall i {:trigger Head(s, i)} :: Head(s, i) ==> s.pd[i].order <= MAX_ORDER && Aligned(i, s.pd[i].order))
    && (forall i, j {:trigger Covers(s, i, j)} :: Covers(s, i, j) && i != j ==> s.lo <= j < s.hi && s.pd[j].flag == Tails)
    && (forall j {:trigger Covered(s, j)} :: s.lo <= j < s.hi ==> Covered(s, j))
  }

  predicate FreeHead(s: State, i: int, o: nat)
    requires Wf(s)
  {
    Head(s, i) && s.pd[i] == Desc(Free, o)
  }

  /** `i` is on free list `o`. */
  predicate Listed(s: State, i: int, o: int) {
    0 <= o < |s.lists| && 0 <= i && i in s.lists[o]
  }

  /** Lists, counters and descriptors agree, and no two free buddies stay apart.
      A block in `loose` is between two steps of an operation: off its list, whatever its flag. */
  ghost predicate ListsAgree(s: State, loose: set<nat>)
    requires Wf(s)
  {
    && (forall i: nat, o: nat {:trigger Listed(s, i, o)} :: Listed(s, i, o) ==> FreeHead(s, i, o) && i !in loose)
    && (forall i: nat {:trigger s.pd[i]} :: Head(s, i) && s.pd[i].flag == Free && i !in loose ==> Listed(s, i, s.pd[i].order))
    && (forall o :: 0 <= o <= MAX_ORDER ==> NoDup(s.lists[o]) && s.count[o] == Wrap(|s.lists[o]|))
  }

  ghost predicate Coalesced(s: State)
  {
    forall i: nat, o: nat {:trigger Listed(s, i, o)} :: Listed(s, i, o) && o < MAX_ORDER ==> !Listed(s, BuddyOf(i, o), o)
  }

  ghost predicate Inv(s: State, loose: set<nat>) {
    Wf(s) && Partition(s) && ListsAgree(s, loose) && Coalesced(s)
  }

  ghost predicate Valid(s: State) {
    Inv(s, {})
  }

  // ---- the operations ----

  function SetDesc(s: State, i: nat, d: Desc): State
    requires i < |s.pd|
  {
    s.(pd := s.pd[i := d])
  }

  function PushBack(s: State, i: nat, o: nat): State
    requires o < |s.lists| && o < |s.count|
  {
    s.(lists := s.lists[o := s.lists[o] + [i]], count := s.count[o := Wrap(s.count[o] + 1)])
  }

  function PushFront(s: State, i: nat, o: nat): State
    requires o < |s.lists| && o < |s.count|
  {
    s.(lists := s.lists[o := [i] + s.lists[o]], count := s.count[o := Wrap(s.count[o] + 1)])
  }

  function PopFront(s: State, o: nat): State
    requires o < |s.lists| && o < |s.count| && s.lists[o] != []
  {
    s.(lists := s.lists[o := s.lists[o][1..]], count := s.count[o := Wrap(s.count[o] as int - 1)])
  }

  /** The counter goes down by two and up by one, as unsigned arithmetic. */
  function UnlinkBuddy(s: State, i: nat, o: nat): State
    requires o < |s.lists| && o < |s.count|
  {
    s.(lists := s.lists[o := Without(s.lists[o], i)],
       count := s.count[o := Wrap(Wrap(s.count[o] as int - 2) + 1)])
  }

  function SplitBlock(s: State, b: nat): State
    requires Wf(s) && b < |s.pd| && 0 < s.pd[b].order <= MAX_ORDER
    requires BuddyOf(b, s.pd[b].order - 1) < |s.pd|
  {
    var o := s.pd[b].order - 1;
    var buddy := BuddyOf(b, o);
    PushBack(SetDesc(s, buddy, Desc(Free, o)), buddy, o)
  }


  // ---- what the operations do ----

  /** Page `j` lies in a block that some free list holds. */
  ghost predicate IsFree(s: State, j: int) {
    exists h: nat, o: nat :: Listed(s, h, o) && h <= j < h + Pow2(o)
  }

  function Weight(lists: seq<seq<nat>>, n: nat): nat
    requires n <= |lists|
  {
    if n == 0 then 0 else Weight(lists, n - 1) + |lists[n - 1]| * Pow2(n - 1)
  }

  /** Total size in pages of the blocks on the free lists. */
  function FreePages(s: State): nat {
    Weight(s.lists, |s.lists|)
  }

  ghost predicate SameRegion(s: State, t: State) {
    s.lo == t.lo && s.hi == t.hi && |s.pd| == |t.pd|
  }

  /** `t` is `s` after block `b` of 2^order pages was taken off the free memory and marked `pt`. */
  ghost predicate Took(s: State, t: State, b: nat, order: nat, pt: PageType) {
    && SameRegion(s, t) && Inv(t, {b})
    && order <= MAX_ORDER && Head(t, b) && t.pd[b] == Desc(pt, order)
    && (forall j {:trigger IsFree(s, j)} :: b <= j < b + Pow2(order) ==> IsFree(s, j))
    && (forall j {:trigger IsFree(t, j)} {:trigger IsFree(s, j)} :: IsFree(t, j) <==> IsFree(s, j) && !(b <= j < b + Pow2(order)))
    && (forall j {:trigger t.pd[j]} :: 0 <= j < |s.pd| && !IsFree(s, j) ==> t.pd[j] == s.pd[j])
    && FreePages(t) + Pow2(order) == FreePages(s)
  }

  /** `t` is `s` after block `b` of 2^order pages joined the free memory. */
  ghost predicate Returned(s: State, t: State, b: nat, order: nat) {
    && SameRegion(s, t) && Valid(t)
    && (forall j {:trigger IsFree(t, j)} {:trigger IsFree(s, j)} :: IsFree(t, j) <==> IsFree(s, j) || b <= j < b + Pow2(order))
    && (forall j {:trigger t.pd[j]} :: 0 <= j < |s.pd| && !IsFree(t, j) ==> t.pd[j] == s.pd[j])
    && FreePages(t) == FreePages(s) + Pow2(order)
  }

  lemma {:induction false} WeightUpdate(lists: seq<seq<nat>>, o: nat, l: seq<nat>, n: nat)
    requires o < |lists| && n <= |lists|
    ensures Weight(lists[o := l], n) == Weight(lists, n) + if o < n then (|l| - |lists[o]|) * Pow2(o) else 0
  {
    if n > 0 {
      WeightUpdate(lists, o, l, n - 1);
    }
  }

  lemma FreePagesUpdate(s: State, t: State, o: nat)
    requires o < |s.lists| && o < |t.lists| && t.lists == s.lists[o := t.lists[o]]
    ensures |t.lists[o]| == |s.lists[o]| + 1 ==> FreePages(t) == FreePages(s) + Pow2(o)
    ensures |t.lists[o]| + 1 == |s.lists[o]| ==> FreePages(t) + Pow2(o) == FreePages(s)
  {
    WeightUpdate(s.lists, o, t.lists[o], |s.lists|);
    assert 1 * Pow2(o) == Pow2(o) && (0 - 1) * Pow2(o) == 0 - Pow2(o);
  }

  /** The buddy of a managed block is managed, aligned and on the other side of the common parent. */
  lemma BuddyFacts(s: State, b: nat, o: nat)
    requires Wf(s) && s.lo <= b < s.hi && o < MAX_ORDER && Aligned(b, o)
    ensures var c := BuddyOf(b, o); var p := And(b, c);
            && s.lo <= p && p + Pow2(o + 1) <= s.hi && Aligned(p, o + 1)
            && Aligned(c, o) && BuddyOf(c, o) == b
            && ((b == p && c == p + Pow2(o)) || (c == p && b == p + Pow2(o)))
            && And(c, b) == p && (Aligned(b, o + 1) <==> b == p)
  {
    var c := BuddyOf(b, o);
    BuddyArithmetic(b, o);
    XorInvolution(b, Pow2(o));
    AndCommutes(b, c);
    var p := And(b, c);
    AlignedWeaken(p, o, o + 1);
    AlignedPow2(o, o);
    AlignedSum(p, Pow2(o), o);
    AlignedWeaken(s.lo, o + 1, MAX_ORDER);
    AlignedWeaken(s.hi, o + 1, MAX_ORDER);
    AlignedGap(p, s.hi, o + 1);
    if p < s.lo {
      AlignedGap(p, s.lo, o + 1);
    }
  }

  /** Two heads covering the same page are the same head. */
  lemma CoverUnique(s: State, a: nat, b: nat, j: int)
    requires Wf(s) && Partition(s) && Covers(s, a, j) && Covers(s, b, j)
    ensures a == b
  {
    if a < b {
      assert Covers(s, a, b);
    } else if b < a {
      assert Covers(s, b, a);
    }
  }

  lemma BlockInside(s: State, b: nat)
    requires Wf(s) && Partition(s) && Head(s, b)
    ensures b + Pow2(s.pd[b].order) <= s.hi
  {
    var o := s.pd[b].order;
    AlignedWeaken(s.hi, o, MAX_ORDER);
    AlignedGap(b, s.hi, o);
  }

  // ---- splitting ----

  /** `s` after block `b` of order o + 1 was cut in two halves of order o, the lower one marked `pt`. */
  function Halved(s: State, b: nat, o: nat, pt: PageType): State
    requires Wf(s) && b < |s.pd| && b + Pow2(o) < |s.pd| && o < MAX_ORDER
  {
    var c := b + Pow2(o);
    SetDesc(PushBack(SetDesc(s, c, Desc(Free, o)), c, o), b, Desc(pt, o))
  }

  lemma HalvedHeads(s: State, b: nat, o: nat, pt: PageType)
    requires Wf(s) && Partition(s) && Head(s, b) && o < MAX_ORDER && s.pd[b].order == o + 1 && pt != Tails
    requires b + Pow2(o + 1) <= s.hi
    ensures Aligned(b, o) && Aligned(b + Pow2(o), o) && s.pd[b + Pow2(o)].flag == Tails
    ensures forall i {:trigger Head(Halved(s, b, o, pt), i)} ::
      Head(Halved(s, b, o, pt), i) <==> Head(s, i) || i == b + Pow2(o)
  {
    assert Covers(s, b, b + Pow2(o));
    AlignedWeaken(b, o, o + 1);
    AlignedPow2(o, o);
    AlignedSum(b, Pow2(o), o);
  }

  lemma HalvedTails(s: State, b: nat, o: nat, pt: PageType, i: int, j: int)
    requires Wf(s) && Partition(s) && Head(s, b) && o < MAX_ORDER && s.pd[b].order == o + 1 && pt != Tails
    requires b + Pow2(o + 1) <= s.hi && Covers(Halved(s, b, o, pt), i, j) && i != j
    ensures s.lo <= j < s.hi && Halved(s, b, o, pt).pd[j].flag == Tails
  {
    var c := b + Pow2(o);
    assert Covers(s, b, c);
    if i == b || i == c {
      assert Covers(s, b, j);
    } else {
      assert Covers(s, i, j);
      if j == c {
        CoverUnique(s, i, b, c);
      }
    }
  }

  lemma HalvedCovers(s: State, b: nat, o: nat, pt: PageType, j: int)
    requires Wf(s) && Partition(s) && Head(s, b) && o < MAX_ORDER && s.pd[b].order == o + 1 && pt != Tails
    requires b + Pow2(o + 1) <= s.hi && s.lo <= j < s.hi
    ensures Covered(Halved(s, b, o, pt), j)
  {
    var c, t := b + Pow2(o), Halved(s, b, o, pt);
    assert Covers(s, b, c);
    assert Covered(s, j);
    var i :| Covers(s, i, j);
    assert Covers(t, if i != b then i else if j < c then b else c, j);
  }

  lemma HalvedPartition(s: State, b: nat, o: nat, pt: PageType)
    requires Wf(s) && Partition(s) && Head(s, b) && o < MAX_ORDER && s.pd[b].order == o + 1 && pt != Tails
    requires b + Pow2(o + 1) <= s.hi
    ensures Partition(Halved(s, b, o, pt))
  {
    var t := Halved(s, b, o, pt);
    HalvedHeads(s, b, o, pt);
    forall i, j | Covers(t, i, j) && i != j
      ensures s.lo <= j < s.hi && t.pd[j].flag == Tails
    {
      HalvedTails(s, b, o, pt, i, j);
    }
    forall j | s.lo <= j < s.hi
      ensures Covered(t, j)
    {
      HalvedCovers(s, b, o, pt, j);
    }
  }

  lemma CountWraps(n: nat)
    ensures Wrap(Wrap(n) + 1) == Wrap(n + 1)
    ensures n > 0 ==> Wrap(Wrap(n) - 1) == Wrap(n - 1)
    ensures n > 0 ==> Wrap(Wrap(Wrap(n) as int - 2) + 1) == Wrap(n - 1)
  {
  }

  lemma PushSeq(l: seq<nat>, m: seq<nat>, i: nat)
    requires NoDup(l) && i !in l && (m == l + [i] || m == [i] + l)
    ensures NoDup(m) && |m| == |l| + 1
    ensures forall x :: x in m <==> x in l || x == i
  {
  }

  /** Pushing a fresh block, at either end, adds it to its list and nothing else. */
  lemma PushLists(s: State, t: State, i: nat, o: nat)
    requires |s.lists| == |s.count| && o < |s.lists|
    requires t.lists == PushBack(s, i, o).lists || t.lists == PushFront(s, i, o).lists
    requires !Listed(s, i, o) && NoDup(s.lists[o]) && s.count[o] == Wrap(|s.lists[o]|)
    requires t.count == PushBack(s, i, o).count
    ensures forall x: nat, k: nat {:trigger Listed(t, x, k)} {:trigger Listed(s, x, k)} ::
              Listed(t, x, k) <==> Listed(s, x, k) || (x == i && k == o)
    ensures NoDup(t.lists[o])
    ensures t.count[o] == Wrap(|t.lists[o]|)
  {
    PushSeq(s.lists[o], t.lists[o], i);
    CountWraps(|s.lists[o]|);
  }

  lemma HalvedLists(s: State, b: nat, o: nat, pt: PageType)
    requires Inv(s, {b}) && o < MAX_ORDER && FreeHead(s, b, o + 1) && pt != Tails
    requires b + Pow2(o + 1) <= s.hi && BuddyOf(b, o) == b + Pow2(o) && BuddyOf(b + Pow2(o), o) == b
    ensures ListsAgree(Halved(s, b, o, pt), {b})
  {
    var c := b + Pow2(o);
    var t := Halved(s, b, o, pt);
    assert Covers(s, b, c);
    assert !Listed(s, c, o);
    PushLists(s, t, c, o);
  }

  lemma HalvedCoalesced(s: State, b: nat, o: nat, pt: PageType)
    requires Inv(s, {b}) && o < MAX_ORDER && FreeHead(s, b, o + 1) && pt != Tails
    requires b + Pow2(o + 1) <= s.hi && BuddyOf(b, o) == b + Pow2(o) && BuddyOf(b + Pow2(o), o) == b
    ensures Coalesced(Halved(s, b, o, pt))
  {
    var c := b + Pow2(o);
    var t := Halved(s, b, o, pt);
    assert Covers(s, b, c);
    assert !Listed(s, c, o);
    PushLists(s, t, c, o);
    forall i: nat, k: nat | Listed(t, i, k) && k < MAX_ORDER
      ensures !Listed(t, BuddyOf(i, k), k)
    {
      if k == o && BuddyOf(i, k) == c {
        XorInvolution(i, Pow2(k));
      }
    }
  }

  lemma HalvedShape(s: State, b: nat, o: nat, pt: PageType)
    requires Inv(s, {b}) && o < MAX_ORDER && FreeHead(s, b, o + 1) && pt != Tails
    requires b + Pow2(o + 1) <= s.hi && BuddyOf(b, o) == b + Pow2(o)
    ensures var t := Halved(s, b, o, pt);
      SameRegion(s, t) && Wf(t) && Head(t, b) && t.pd[b] == Desc(pt, o) && t == SetDesc(SplitBlock(s, b), b, Desc(pt, o))
  {
  }

  lemma SplitStep(s: State, b: nat, o: nat, pt: PageType)
    requires Inv(s, {b}) && o < MAX_ORDER && FreeHead(s, b, o + 1) && pt != Tails
    ensures BuddyOf(b, o) == b + Pow2(o) && b + Pow2(o + 1) <= s.hi
    ensures var t := Halved(s, b, o, pt);
      && SameRegion(s, t) && Inv(t, {b}) && Head(t, b) && t.pd[b] == Desc(pt, o)
      && t == SetDesc(SplitBlock(s, b), b, Desc(pt, o))
      && (forall j {:trigger IsFree(t, j)} {:trigger IsFree(s, j)} ::
            IsFree(t, j) <==> IsFree(s, j) || b + Pow2(o) <= j < b + Pow2(o + 1))
      && FreePages(t) == FreePages(s) + Pow2(o)
  {
    BlockInside(s, b);
    AlignedWeaken(b, o, o + 1);
    BuddyFacts(s, b, o);
    HalvedShape(s, b, o, pt);
    HalvedPartition(s, b, o, pt);
    HalvedLists(s, b, o, pt);
    HalvedCoalesced(s, b, o, pt);
    HalvedFree(s, b, o, pt);
  }

  lemma HalvedFree(s: State, b: nat, o: nat, pt: PageType)
    requires Inv(s, {b}) && o < MAX_ORDER && FreeHead(s, b, o + 1) && pt != Tails
    requires b + Pow2(o + 1) <= s.hi
    ensures var t := Halved(s, b, o, pt);
      && (forall j {:trigger IsFree(t, j)} {:trigger IsFree(s, j)} ::
            IsFree(t, j) <==> IsFree(s, j) || b + Pow2(o) <= j < b + Pow2(o + 1))
      && FreePages(t) == FreePages(s) + Pow2(o)
  {
    var c := b + Pow2(o);
    var t := Halved(s, b, o, pt);
    assert Covers(s, b, c);
    assert !Listed(s, c, o);
    PushLists(s, t, c, o);
    PushFree(s, t, c, o);
    FreePagesUpdate(s, t, o);
  }

  lemma PushFree(s: State, t: State, c: nat, o: nat)
    requires forall x: nat, k: nat {:trigger Listed(t, x, k)} {:trigger Listed(s, x, k)} ::
               Listed(t, x, k) <==> Listed(s, x, k) || (x == c && k == o)
    ensures forall j {:trigger IsFree(t, j)} {:trigger IsFree(s, j)} ::
              IsFree(t, j) <==> IsFree(s, j) || c <= j < c + Pow2(o)
  {
    forall j
      ensures IsFree(t, j) <==> IsFree(s, j) || c <= j < c + Pow2(o)
    {
      if h: nat, k: nat :| Listed(s, h, k) && h <= j < h + Pow2(k) {
        assert Listed(t, h, k);
      }
      if c <= j < c + Pow2(o) {
        assert Listed(t, c, o);
      }
      if h: nat, k: nat :| Listed(t, h, k) && h <= j < h + Pow2(k) {
        assert Listed(s, h, k) || (h == c && k == o);
      }
    }
  }

  // ---- allocation ----

  /** Taking a block off its list, from the front or from the middle. */
  lemma UnlinkLists(s: State, t: State, i: nat, o: nat)
    requires |s.lists| == |s.count| && o < |s.lists| && Listed(s, i, o)
    requires NoDup(s.lists[o]) && s.count[o] == Wrap(|s.lists[o]|)
    requires (i == s.lists[o][0] && t.lists == PopFront(s, o).lists && t.count == PopFront(s, o).count)
          || (t.lists == UnlinkBuddy(s, i, o).lists && t.count == UnlinkBuddy(s, i, o).count)
    ensures forall x: nat, k: nat {:trigger Listed(t, x, k)} {:trigger Listed(s, x, k)} ::
              Listed(t, x, k) <==> Listed(s, x, k) && !(x == i && k == o)
    ensures NoDup(t.lists[o])
    ensures t.count[o] == Wrap(|t.lists[o]|)
    ensures FreePages(t) + Pow2(o) == FreePages(s)
  {
    var l := s.lists[o];
    WithoutMembers(l, i);
    assert t.lists[o] == Without(l, i);
    CountWraps(|l|);
    FreePagesUpdate(s, t, o);
  }

  /** A page on the free lists is covered by exactly one listed block. */
  lemma FreeOnce(s: State, loose: set<nat>, a: nat, k: nat, b: nat, o: nat, j: int)
    requires Inv(s, loose) && Listed(s, a, k) && Listed(s, b, o)
    requires a <= j < a + Pow2(k) && b <= j < b + Pow2(o)
    ensures a == b && k == o
  {
    assert Covers(s, a, j) && Covers(s, b, j);
    CoverUnique(s, a, b, j);
  }

  lemma UnlinkFree(s: State, t: State, loose: set<nat>, c: nat, o: nat)
    requires Inv(s, loose) && Listed(s, c, o)
    requires forall x: nat, k: nat {:trigger Listed(t, x, k)} {:trigger Listed(s, x, k)} ::
               Listed(t, x, k) <==> Listed(s, x, k) && !(x == c && k == o)
    ensures forall j {:trigger IsFree(s, j)} :: c <= j < c + Pow2(o) ==> IsFree(s, j)
    ensures forall j {:trigger IsFree(t, j)} {:trigger IsFree(s, j)} ::
              IsFree(t, j) <==> IsFree(s, j) && !(c <= j < c + Pow2(o))
  {
    forall j
      ensures IsFree(t, j) <==> IsFree(s, j) && !(c <= j < c + Pow2(o))
    {
      if h: nat, k: nat :| Listed(t, h, k) && h <= j < h + Pow2(k) {
        assert Listed(s, h, k);
        if c <= j < c + Pow2(o) {
          FreeOnce(s, loose, h, k, c, o, j);
        }
      }
      if h: nat, k: nat :| Listed(s, h, k) && h <= j < h + Pow2(k) && !(c <= j < c + Pow2(o)) {
        assert Listed(t, h, k);
      }
    }
  }

  /** Changing the mark on a block changes neither the partition nor what is free. */
  lemma RemarkPartition(s: State, b: nat, pt: PageType)
    requires Wf(s) && Partition(s) && Head(s, b) && pt != Tails
    ensures Partition(SetDesc(s, b, Desc(pt, s.pd[b].order)))
  {
    var t := SetDesc(s, b, Desc(pt, s.pd[b].order));
    assert forall i {:trigger Head(t, i)} :: Head(t, i) <==> Head(s, i);
    assert forall i, j {:trigger Covers(t, i, j)} :: Covers(t, i, j) <==> Covers(s, i, j);
    forall j | s.lo <= j < s.hi
      ensures Covered(t, j)
    {
      assert Covered(s, j);
      var i :| Covers(s, i, j);
      assert Covers(t, i, j);
    }
  }

  lemma PopStep(s: State, order: nat, pt: PageType)
    requires Valid(s) && order <= MAX_ORDER && s.lists[order] != [] && pt != Tails
    ensures var b := s.lists[order][0];
      b < |s.pd| && Took(s, SetDesc(PopFront(s, order), b, Desc(pt, order)), b, order, pt)
  {
    var b := s.lists[order][0];
    assert Listed(s, b, order);
    var t := SetDesc(PopFront(s, order), b, Desc(pt, order));
    UnlinkLists(s, t, b, order);
    RemarkPartition(s, b, pt);
    assert Partition(t) by {
      var u := SetDesc(s, b, Desc(pt, s.pd[b].order));
      assert Partition(u) && t.pd == u.pd;
      SamePartition(u, t);
    }
    UnlinkFree(s, t, {}, b, order);
    forall j | !IsFree(s, j)
      ensures j != b
    {
    }
  }

  lemma SamePartition(s: State, t: State)
    requires Wf(s) && Wf(t) && Partition(s) && SameRegion(s, t) && s.pd == t.pd
    ensures Partition(t)
  {
    assert forall i {:trigger Head(t, i)} :: Head(t, i) <==> Head(s, i);
    assert forall i, j {:trigger Covers(t, i, j)} :: Covers(t, i, j) <==> Covers(s, i, j);
    forall j | s.lo <= j < s.hi
      ensures Covered(t, j)
    {
      assert Covered(s, j);
      var i :| Covers(s, i, j);
      assert Covers(t, i, j);
    }
  }

  lemma TookThenSplit(s: State, s1: State, b: nat, o: nat, pt: PageType)
    requires Took(s, s1, b, o + 1, Free) && o < MAX_ORDER && pt != Tails
    ensures BuddyOf(b, o) == b + Pow2(o) && b + Pow2(o + 1) <= s1.hi
    ensures Took(s, Halved(s1, b, o, pt), b, o, pt)
    ensures Halved(s1, b, o, pt) == SetDesc(SplitBlock(s1, b), b, Desc(pt, o))
  {
    SplitStep(s1, b, o, pt);
    var t := Halved(s1, b, o, pt);
    assert IsFree(s, b) && IsFree(s, b + Pow2(o));
  }

  /** A larger block was taken: its second half goes back and the first one is marked. */
  function SplitTaken(s: State, s1: State, b: nat, order: nat, pt: PageType): (t: State)
    requires Took(s, s1, b, order + 1, Free) && order < MAX_ORDER && pt != Tails
    ensures Took(s, t, b, order, pt)
  {
    TookThenSplit(s, s1, b, order, pt);
    SetDesc(SplitBlock(s1, b), b, Desc(pt, order))
  }

  function TakeFront(s: State, order: nat, pt: PageType): (t: State)
    requires Valid(s) && order <= MAX_ORDER && s.lists[order] != [] && pt != Tails
    ensures Took(s, t, s.lists[order][0], order, pt)
  {
    PopStep(s, order, pt);
    SetDesc(PopFront(s, order), s.lists[order][0], Desc(pt, order))
  }

  function Allocate(s: State, order: nat, pt: PageType): (r: (State, Option<nat>))
    requires Valid(s) && pt != Tails
    ensures r.1.None? ==> r.0 == s && forall k :: order <= k <= MAX_ORDER ==> s.lists[k] == []
    ensures r.1.Some? ==> Took(s, r.0, r.1.value, order, pt)
    decreases MAX_ORDER + 1 - order
  {
    if order > MAX_ORDER then (s, None)
    else if s.lists[order] == [] then
      var (s1, big) := Allocate(s, order + 1, Free);
      if big.None? then (s1, None) else (SplitTaken(s, s1, big.value, order, pt), big)
    else
      (TakeFront(s, order, pt), Some(s.lists[order][0]))
  }

  /** One unfolding of an allocation that has to split a larger block. */
  lemma AllocateBySplitting(s: State, order: nat, pt: PageType)
    requires Valid(s) && pt != Tails && order <= MAX_ORDER && s.lists[order] == []
    ensures var (s1, big) := Allocate(s, order + 1, Free);
      if big.None? then Allocate(s, order, pt) == (s1, None)
      else
        && Wf(s1) && big.value < |s1.pd| && s1.pd[big.value].order == order + 1 <= MAX_ORDER
        && BuddyOf(big.value, order) < |s1.pd|
        && Allocate(s, order, pt) == (SetDesc(SplitBlock(s1, big.value), big.value, Desc(pt, order)), big)
  {
    var (s1, big) := Allocate(s, order + 1, Free);
    if big.Some? {
      TookThenSplit(s, s1, big.value, order, pt);
    }
  }

  /** One unfolding of an allocation served from the front of its own list. */
  lemma AllocateFromFront(s: State, order: nat, pt: PageType)
    requires Valid(s) && pt != Tails && order <= MAX_ORDER && s.lists[order] != []
    ensures var b := s.lists[order][0]; var (t, r) := Allocate(s, order, pt);
      b < |s.pd| && r == Some(b) && t == SetDesc(PopFront(s, order), b, Desc(pt, order))
  {
    PopStep(s, order, pt);
  }

  // ---- freeing ----

  /** Block `b` and its free buddy become one block of the next order, not yet on a list. */
  function Merged(s: State, b: nat, o: nat): State
    requires Wf(s) && o < MAX_ORDER && b < |s.pd| && BuddyOf(b, o) < |s.pd|
    requires And(b, BuddyOf(b, o)) < |s.pd| && BuddyOf(And(b, BuddyOf(b, o)), o) < |s.pd|
  {
    var c := BuddyOf(b, o);
    var p := And(b, c);
    var q := BuddyOf(p, o);
    var t := UnlinkBuddy(s, c, o);
    var u := SetDesc(t, q, t.pd[q].(flag := Tails));
    SetDesc(u, p, u.pd[p].(order := o + 1))
  }

  lemma MergedPartition(s: State, t: State, p: nat, q: nat, o: nat)
    requires Wf(s) && Partition(s) && Wf(t) && SameRegion(s, t) && o < MAX_ORDER
    requires FreeHead(s, p, o) && FreeHead(s, q, o) && q == p + Pow2(o) && Aligned(p, o + 1)
    requires t.pd == s.pd[q := Desc(Tails, o)][p := Desc(Free, o + 1)]
    ensures Partition(t)
  {
    assert forall i {:trigger Head(t, i)} :: Head(t, i) ==> Head(s, i) && i != q;
    forall i, j | Covers(t, i, j) && i != j
      ensures s.lo <= j < s.hi && t.pd[j].flag == Tails
    {
      if i == p {
        assert j == q || Covers(s, p, j) || Covers(s, q, j);
      } else {
        assert Covers(s, i, j);
      }
    }
    forall j | s.lo <= j < s.hi
      ensures Covered(t, j)
    {
      assert Covered(s, j);
      var i :| Covers(s, i, j);
      assert Covers(t, if i == q then p else i, j);
    }
  }

  lemma MergedLists(s: State, t: State, b: nat, c: nat, p: nat, q: nat, o: nat)
    requires Inv(s, {b}) && Wf(t) && SameRegion(s, t) && o < MAX_ORDER
    requires FreeHead(s, b, o) && FreeHead(s, c, o) && b != c
    requires (p == b && q == c) || (p == c && q == b)
    requires t.pd == s.pd[q := Desc(Tails, o)][p := Desc(Free, o + 1)]
    requires t.lists == UnlinkBuddy(s, c, o).lists && t.count == UnlinkBuddy(s, c, o).count
    ensures ListsAgree(t, {p}) && Coalesced(t)
    ensures FreePages(t) + Pow2(o) == FreePages(s)
    ensures forall x: nat, k: nat {:trigger Listed(t, x, k)} {:trigger Listed(s, x, k)} ::
              Listed(t, x, k) <==> Listed(s, x, k) && !(x == c && k == o)
  {
    assert Listed(s, c, o);
    UnlinkLists(s, t, c, o);
  }

  predicate CanMerge(s: State, b: nat, o: nat)
    requires Wf(s)
  {
    o < MAX_ORDER && BuddyOf(b, o) < |s.pd| && s.pd[BuddyOf(b, o)] == Desc(Free, o)
  }

  /** The merged block and what merging writes. */
  lemma MergedDescs(s: State, b: nat, o: nat)
    requires Inv(s, {b}) && FreeHead(s, b, o) && CanMerge(s, b, o)
    ensures var c := BuddyOf(b, o); var p := And(b, c);
      && p < |s.pd| && BuddyOf(p, o) < |s.pd| && s.lo <= p && FreeHead(s, c, o) && Aligned(p, o + 1)
      && (if p == b then c == b + Pow2(o) else p == c && b == c + Pow2(o))
    ensures var c := BuddyOf(b, o); var p := And(b, c); var t := Merged(s, b, o);
      && Wf(t) && SameRegion(s, t) && t.pd == s.pd[(if p == b then c else b) := Desc(Tails, o)][p := Desc(Free, o + 1)]
  {
    BuddyFacts(s, b, o);
    BuddyFacts(s, And(b, BuddyOf(b, o)), o);
  }

  lemma MergeStepInv(s: State, b: nat, o: nat)
    requires Inv(s, {b}) && FreeHead(s, b, o) && CanMerge(s, b, o)
    ensures var c := BuddyOf(b, o); var p := And(b, c); p < |s.pd| && BuddyOf(p, o) < |s.pd|
    ensures var c := BuddyOf(b, o); var p := And(b, c); var t := Merged(s, b, o);
      && SameRegion(s, t) && Inv(t, {p}) && FreeHead(t, p, o + 1)
      && t.pd == s.pd[(if p == b then c else b) := Desc(Tails, o)][p := Desc(Free, o + 1)]
      && p <= b < p + Pow2(o + 1) && p <= c < p + Pow2(o + 1) && (b + Pow2(o) == c || c + Pow2(o) == b)
      && (p == b || p == c)
      && FreePages(t) + Pow2(o) == FreePages(s)
  {
    MergedDescs(s, b, o);
    var c := BuddyOf(b, o);
    var p := And(b, c);
    var q := if p == b then c else b;
    var t := Merged(s, b, o);
    MergedPartition(s, t, p, q, o);
    MergedLists(s, t, b, c, p, q, o);
  }

  lemma MergeStep(s: State, b: nat, o: nat)
    requires Inv(s, {b}) && FreeHead(s, b, o) && CanMerge(s, b, o)
    ensures var c := BuddyOf(b, o); var p := And(b, c); p < |s.pd| && BuddyOf(p, o) < |s.pd|
    ensures var c := BuddyOf(b, o); var p := And(b, c); var t := Merged(s, b, o);
      && SameRegion(s, t) && Inv(t, {p}) && FreeHead(t, p, o + 1)
      && p <= b < p + Pow2(o + 1) && p <= c < p + Pow2(o + 1) && (b + Pow2(o) == c || c + Pow2(o) == b)
      && (p == b || p == c)
      && (forall j {:trigger IsFree(s, j)} :: c <= j < c + Pow2(o) ==> IsFree(s, j))
      && (forall j {:trigger IsFree(t, j)} {:trigger IsFree(s, j)} ::
            IsFree(t, j) <==> IsFree(s, j) && !(c <= j < c + Pow2(o)))
      && (forall j {:trigger t.pd[j]} :: 0 <= j < |s.pd| && j != b && j != c ==> t.pd[j] == s.pd[j])
      && FreePages(t) + Pow2(o) == FreePages(s)
  {
    MergeStepInv(s, b, o);
    var c := BuddyOf(b, o);
    var t := Merged(s, b, o);
    BuddyFacts(s, b, o);
    assert FreeHead(s, c, o);
    assert Listed(s, c, o);
    UnlinkLists(s, t, c, o);
    UnlinkFree(s, t, {b}, c, o);
  }

  /** A block that cannot merge goes to the front of its list. */
  lemma SettleStep(s: State, b: nat, o: nat)
    requires Inv(s, {b}) && FreeHead(s, b, o) && !CanMerge(s, b, o)
    ensures Returned(s, PushFront(s, b, o), b, o)
  {
    var t := PushFront(s, b, o);
    assert !Listed(s, b, o);
    PushLists(s, t, b, o);
    PushFree(s, t, b, o);
    FreePagesUpdate(s, t, o);
    SamePartition(s, t);
    forall i: nat, k: nat | Listed(t, i, k) && k < MAX_ORDER
      ensures !Listed(t, BuddyOf(i, k), k)
    {
      XorInvolution(i, Pow2(k));
      if k == o && (i == b || BuddyOf(i, k) == b) {
        BuddyFacts(s, b, o);
        assert !Listed(s, BuddyOf(b, o), o);
      }
    }
  }

  lemma MergeThenReturn(s: State, b: nat, o: nat, t: State)
    requires Inv(s, {b}) && FreeHead(s, b, o) && CanMerge(s, b, o)
    requires var c := BuddyOf(b, o); var p := And(b, c); p < |s.pd| && BuddyOf(p, o) < |s.pd|
    requires Returned(Merged(s, b, o), t, And(b, BuddyOf(b, o)), o + 1)
    ensures Returned(s, t, b, o)
  {
    MergeStep(s, b, o);
  }

  lemma RemarkStep(s: State, b: nat)
    requires Inv(s, {b}) && Head(s, b)
    ensures var t := SetDesc(s, b, s.pd[b].(flag := Free));
      SameRegion(s, t) && Inv(t, {b}) && FreeHead(t, b, s.pd[b].order)
  {
    RemarkPartition(s, b, Free);
    var t := SetDesc(s, b, s.pd[b].(flag := Free));
    assert t == SetDesc(s, b, Desc(Free, s.pd[b].order));
    assert forall i: nat, k: nat {:trigger Listed(t, i, k)} :: Listed(t, i, k) <==> Listed(s, i, k);
  }

  lemma RemarkThenReturn(s: State, b: nat, t: State)
    requires Inv(s, {b}) && Head(s, b)
    requires Returned(SetDesc(s, b, s.pd[b].(flag := Free)), t, b, s.pd[b].order)
    ensures Returned(s, t, b, s.pd[b].order)
  {
    var m := SetDesc(s, b, s.pd[b].(flag := Free));
    assert forall i: nat, k: nat {:trigger Listed(m, i, k)} :: Listed(m, i, k) <==> Listed(s, i, k);
    assert forall j {:trigger IsFree(m, j)} {:trigger IsFree(s, j)} :: IsFree(m, j) <==> IsFree(s, j) by {
      forall j
        ensures IsFree(m, j) <==> IsFree(s, j)
      {
        if h: nat, k: nat :| Listed(m, h, k) && h <= j < h + Pow2(k) {
          assert Listed(s, h, k);
        }
        if h: nat, k: nat :| Listed(s, h, k) && h <= j < h + Pow2(k) {
          assert Listed(m, h, k);
        }
      }
    }
  }

  function TryMergeAndGet(s: State, b: nat): (t: State)
    requires Inv(s, {b}) && Head(s, b) && s.pd[b].flag == Free
    ensures Returned(s, t, b, s.pd[b].order)
    decreases MAX_ORDER + 1 - s.pd[b].order, 0
  {
    var o := s.pd[b].order;
    if CanMerge(s, b, o) then
      MergeStep(s, b, o);
      var t := DeallocateBlock(Merged(s, b, o), And(b, BuddyOf(b, o)));
      MergeThenReturn(s, b, o, t);
      t
    else
      SettleStep(s, b, o);
      PushFront(s, b, o)
  }

  function DeallocateBlock(s: State, b: nat): (t: State)
    requires Inv(s, {b}) && Head(s, b)
    ensures Returned(s, t, b, s.pd[b].order)
    decreases MAX_ORDER + 1 - s.pd[b].order, 1
  {
    RemarkStep(s, b);
    var t := TryMergeAndGet(SetDesc(s, b, s.pd[b].(flag := Free)), b);
    RemarkThenReturn(s, b, t);
    t
  }
}
