/** Freeing with the removal the list code carries out (IntrusiveList.ListBase.PopNode): when it does
    what Buddy describes, and a run after which it does not. */
module BuddyAsWritten {
  import opened Bits
  import opened Sequences
  import opened Wrappers
  import opened Buddy
  import opened BuddyTheorems

  /** The block is marked free and merges upwards; None when a free list is left broken. */
  function FreeAsWritten(s: State, b: nat): Option<State>
    requires Inv(s, {b}) && Head(s, b)
    decreases MAX_ORDER + 1 - s.pd[b].order
  {
    RemarkStep(s, b);
    var o := s.pd[b].order;
    var m := SetDesc(s, b, s.pd[b].(flag := Free));
    if !CanMerge(m, b, o) then Some(PushFront(m, b, o))
    else
      MergeStep(m, b, o);
      match RemoveAsWritten(m.lists[o], BuddyOf(b, o))
      case None => None
      case Some(left) =>
        assert Merged(m, b, o).lists == m.lists[o := left];
        FreeAsWritten(Merged(m, b, o).(lists := m.lists[o := left]), And(b, BuddyOf(b, o)))
  }

  /** None of the buddies that freeing block `b` of order `o` merges with, one order after the other,
      is the last of three or more blocks on its list. */
  predicate ExactFree(s: State, b: nat, o: nat)
    requires Wf(s)
    decreases MAX_ORDER - o
  {
    CanMerge(s, b, o) ==> ExactRemoval(s.lists[o], BuddyOf(b, o)) && ExactFree(s, And(b, BuddyOf(b, o)), o + 1)
  }

  /** The two states differ only inside block `b` of order `o` and on smaller lists. */
  ghost predicate SameAbove(s: State, t: State, b: nat, o: nat)
    requires Wf(s) && Wf(t)
  {
    && SameRegion(s, t)
    && (forall j {:trigger t.pd[j]} :: 0 <= j < |s.pd| && !(b <= j < b + Pow2(o)) ==> t.pd[j] == s.pd[j])
    && (forall k :: o <= k <= MAX_ORDER ==> t.lists[k] == s.lists[k])
  }

  lemma {:induction false} ExactFreeAbove(s: State, t: State, b: nat, o: nat)
    requires Wf(s) && Wf(t) && SameAbove(s, t, b, o)
    requires s.lo <= b < s.hi && Aligned(b, o) && o <= MAX_ORDER
    ensures ExactFree(s, b, o) <==> ExactFree(t, b, o)
    decreases MAX_ORDER - o
  {
    if o < MAX_ORDER {
      BuddyFacts(s, b, o);
      ExactFreeAbove(s, t, And(b, BuddyOf(b, o)), o + 1);
    }
  }

  lemma MergedDiffersInside(s: State, b: nat, o: nat)
    requires Inv(s, {b}) && FreeHead(s, b, o) && CanMerge(s, b, o)
    ensures var p := And(b, BuddyOf(b, o));
      && p < |s.pd| && BuddyOf(p, o) < |s.pd| && Wf(Merged(s, b, o))
      && SameAbove(s, Merged(s, b, o), p, o + 1) && s.lo <= p < s.hi && Aligned(p, o + 1)
  {
    MergedDescs(s, b, o);
  }

  /** Merging does not change what the merges further up are like. */
  lemma MergedSameAbove(s: State, b: nat, o: nat)
    requires Inv(s, {b}) && FreeHead(s, b, o) && CanMerge(s, b, o)
    ensures var p := And(b, BuddyOf(b, o));
      && p < |s.pd| && BuddyOf(p, o) < |s.pd| && Wf(Merged(s, b, o))
      && (ExactFree(s, p, o + 1) <==> ExactFree(Merged(s, b, o), p, o + 1))
  {
    MergedDiffersInside(s, b, o);
    ExactFreeAbove(s, Merged(s, b, o), And(b, BuddyOf(b, o)), o + 1);
  }

  lemma MarkedSame(s: State, b: nat, o: nat)
    requires Wf(s) && Partition(s) && Head(s, b) && o == s.pd[b].order
    ensures ExactFree(s, b, o) <==> ExactFree(SetDesc(s, b, s.pd[b].(flag := Free)), b, o)
  {
    ExactFreeAbove(s, SetDesc(s, b, s.pd[b].(flag := Free)), b, o);
  }

  /** The block marked free, as it enters the merge. */
  function Marked(s: State, b: nat): State
    requires Wf(s) && Head(s, b)
  {
    SetDesc(s, b, s.pd[b].(flag := Free))
  }

  lemma NoMergeUnfolds(s: State, b: nat)
    requires Inv(s, {b}) && Head(s, b) && !CanMerge(Marked(s, b), b, s.pd[b].order)
    ensures FreeAsWritten(s, b) == Some(DeallocateBlock(s, b))
  {
    RemarkStep(s, b);
  }

  lemma MergeUnfolds(s: State, b: nat, o: nat, m: State, p: nat)
    requires Inv(s, {b}) && Head(s, b) && o == s.pd[b].order && m == Marked(s, b) && CanMerge(m, b, o) && p == And(b, BuddyOf(b, o))
    ensures p < |m.pd| && BuddyOf(p, o) < |m.pd| && Inv(m, {b}) && FreeHead(m, b, o)
    ensures Inv(Merged(m, b, o), {p}) && FreeHead(Merged(m, b, o), p, o + 1)
    ensures DeallocateBlock(s, b) == DeallocateBlock(Merged(m, b, o), p)
    ensures FreeAsWritten(s, b) == if ExactRemoval(m.lists[o], BuddyOf(b, o)) then FreeAsWritten(Merged(m, b, o), p) else None
  {
    RemarkStep(s, b);
    MergeStepInv(m, b, o);
  }

  /** Freeing as written leaves the state Buddy describes exactly when no merge takes the last of three
      or more blocks off a list; otherwise it leaves a broken list. */
  lemma {:induction false} FreeAsWrittenIff(s: State, b: nat)
    requires Inv(s, {b}) && Head(s, b)
    ensures FreeAsWritten(s, b) == if ExactFree(s, b, s.pd[b].order) then Some(DeallocateBlock(s, b)) else None
    decreases MAX_ORDER + 1 - s.pd[b].order
  {
    var o, m := s.pd[b].order, Marked(s, b);
    MarkedSame(s, b, o);
    if CanMerge(m, b, o) {
      var p := And(b, BuddyOf(b, o));
      MergeUnfolds(s, b, o, m, p);
      MergedSameAbove(m, b, o);
      FreeAsWrittenIff(Merged(m, b, o), p);
    } else {
      NoMergeUnfolds(s, b);
    }
  }

  // ---- a run after which a list is broken ----

  /** One call as written. Allocating only takes blocks off the front of a list. */
  function StepAsWritten(s: State, op: Op): Option<State>
    requires Valid(s) && Legal(s, op)
  {
    match op
    case Alloc(_, _) => Some(Step(s, op))
    case Dealloc(b) =>
      InUseIsLoose(s, b);
      FreeAsWritten(s, b)
  }

  predicate ExactOp(s: State, op: Op)
    requires Wf(s) && Legal(s, op)
  {
    op.Dealloc? ==> ExactFree(s, op.b, s.pd[op.b].order)
  }

  lemma StepAsWrittenIff(s: State, op: Op)
    requires Valid(s) && Legal(s, op)
    ensures StepAsWritten(s, op) == if ExactOp(s, op) then Some(Step(s, op)) else None
  {
    if op.Dealloc? {
      InUseIsLoose(s, op.b);
      FreeAsWrittenIff(s, op.b);
    }
  }

  /** A whole run as written. */
  function RunAsWritten(s: State, ops: seq<Op>): Option<State>
    requires Valid(s) && LegalRun(s, ops)
    decreases |ops|
  {
    if ops == [] then Some(s)
    else
      StepAsWrittenIff(s, ops[0]);
      match StepAsWritten(s, ops[0])
      case None => None
      case Some(n) => RunAsWritten(n, ops[1..])
  }

  /** The run as written leads to `t` and breaks no list. */
  ghost predicate Reaches(s: State, ops: seq<Op>, t: State) {
    Valid(s) && LegalRun(s, ops) && RunAsWritten(s, ops) == Some(t) && Valid(t) && SameRegion(s, t)
  }

  lemma {:induction false} ReachesNext(s: State, ops: seq<Op>, t: State, op: Op)
    requires Reaches(s, ops, t) && Legal(t, op) && ExactOp(t, op)
    ensures Reaches(s, ops + [op], Step(t, op))
    decreases |ops|
  {
    if ops == [] {
      StepAsWrittenIff(t, op);
      assert ops + [op] == [op] && [op][1..] == [];
    } else {
      StepAsWrittenIff(s, ops[0]);
      assert (ops + [op])[0] == ops[0] && (ops + [op])[1..] == ops[1..] + [op];
      ReachesNext(Step(s, ops[0]), ops[1..], t, op);
    }
  }

  const HALF: nat := 256

  /** The two halves of a chunk. */
  lemma Halves(s: State, x: nat)
    requires Wf(s) && s.lo <= x < s.hi && Aligned(x, MAX_ORDER)
    ensures Pow2(8) == HALF && x + 2 * HALF <= s.hi && BuddyOf(x, 8) == x + HALF && BuddyOf(x + HALF, 8) == x
    ensures Aligned(x + HALF, 8) && !Aligned(x + HALF, MAX_ORDER)
  {
    PowerOfEight();
    AlignedWeaken(x, 8, MAX_ORDER);
    BuddyFacts(s, x, 8);
    BuddyFacts(s, x + HALF, 8);
  }

  lemma PowerOfEight()
    ensures Pow2(8) == HALF && Pow2(9) == 2 * HALF
  {
    assert Pow2(8) == 2 * Pow2(7) == 4 * Pow2(6) == 8 * Pow2(5) == 16 * Pow2(4) == 32 * Pow2(3);
  }

  ghost predicate Chunk(s: State, x: nat)
    requires Wf(s)
  {
    s.lo <= x < s.hi && Aligned(x, MAX_ORDER)
  }

  lemma FirstChunk(s: State, x: nat)
    requires Valid(s) && s.lists[MAX_ORDER] != [] && x == s.lists[MAX_ORDER][0]
    ensures Chunk(s, x)
  {
    assert Listed(s, x, MAX_ORDER);
  }

  /** A whole chunk from the front of its list; its descriptor is as it was. */
  lemma TakeWhole(s: State, x: nat)
    requires Valid(s) && s.lists[MAX_ORDER] != [] && x == s.lists[MAX_ORDER][0]
    ensures var r := Allocate(s, MAX_ORDER, Free);
      r.1 == Some(x) && r.0.lists == s.lists[MAX_ORDER := s.lists[MAX_ORDER][1..]] && r.0.pd == s.pd
  {
    assert Listed(s, x, MAX_ORDER);
    AllocateFromFront(s, MAX_ORDER, Free);
    assert s.pd[x := Desc(Free, MAX_ORDER)] == s.pd;
  }

  /** The first half-chunk allocation from a whole chunk. */
  lemma TakeLower(s: State, x: nat)
    requires Valid(s) && s.lists[8] == [] && s.lists[MAX_ORDER] != [] && x == s.lists[MAX_ORDER][0]
    ensures x + HALF < |s.pd| && Legal(s, Alloc(8, Kernel))
    ensures var t := Step(s, Alloc(8, Kernel));
      && t.lists == s.lists[MAX_ORDER := s.lists[MAX_ORDER][1..]][8 := [x + HALF]]
      && t.pd == s.pd[x + HALF := Desc(Free, 8)][x := Desc(Kernel, 8)]
  {
    FirstChunk(s, x);
    Halves(s, x);
    TakeWhole(s, x);
    AllocateBySplitting(s, 8, Kernel);
    var s1 := Allocate(s, MAX_ORDER, Free).0;
    SplitChunk(s1, x, Allocate(s, 8, Kernel).0);
  }

  lemma SplitChunk(s1: State, x: nat, t: State)
    requires Wf(s1) && s1.lists[8] == [] && x + HALF < |s1.pd| && s1.pd[x].order == MAX_ORDER && BuddyOf(x, 8) == x + HALF
    requires t == SetDesc(SplitBlock(s1, x), x, Desc(Kernel, 8))
    ensures t.lists == s1.lists[8 := [x + HALF]] && t.pd == s1.pd[x + HALF := Desc(Free, 8)][x := Desc(Kernel, 8)]
  {
    assert [] + [x + HALF] == [x + HALF];
  }

  /** The second one takes the other half. */
  lemma TakeUpper(s: State, y: nat)
    requires Valid(s) && s.lists[8] == [y]
    ensures y < |s.pd| && Legal(s, Alloc(8, Kernel))
    ensures var t := Step(s, Alloc(8, Kernel)); t.lists == s.lists[8 := []] && t.pd == s.pd[y := Desc(Kernel, 8)]
  {
    assert Listed(s, y, 8);
    AllocateFromFront(s, 8, Kernel);
    assert s.lists[8][1..] == [];
  }

  lemma TakeBoth(m: State, x: nat)
    requires Valid(m) && m.lists[8] == [] && m.lists[MAX_ORDER] != [] && x == m.lists[MAX_ORDER][0]
    ensures Chunk(m, x) && x + HALF < |m.pd| && Legal(m, Alloc(8, Kernel))
    ensures Legal(Step(m, Alloc(8, Kernel)), Alloc(8, Kernel))
    ensures var u := Step(Step(m, Alloc(8, Kernel)), Alloc(8, Kernel));
      && u.lists == m.lists[MAX_ORDER := m.lists[MAX_ORDER][1..]]
      && u.pd == m.pd[x + HALF := Desc(Kernel, 8)][x := Desc(Kernel, 8)]
  {
    FirstChunk(m, x);
    TakeLower(m, x);
    var t := Step(m, Alloc(8, Kernel));
    assert t.lists[8] == [x + HALF];
    TakeUpper(t, x + HALF);
    SameUpdates(m.lists, 9, 8, m.lists[MAX_ORDER][1..], [x + HALF]);
    SamePages(m.pd, x + HALF, x, Desc(Free, 8), Desc(Kernel, 8));
  }

  lemma SameUpdates(l: seq<seq<nat>>, i: nat, j: nat, a: seq<nat>, b: seq<nat>)
    requires i < |l| && j < |l| && i != j
    ensures l[i := a][j := b][j := l[j]] == l[i := a]
  {
  }

  lemma SamePages(l: seq<Desc>, i: nat, j: nat, a: Desc, b: Desc)
    requires i < |l| && j < |l| && i != j
    ensures l[i := a][j := b][i := b] == l[i := b][j := b]
  {
  }

  /** Two allocations use up the first chunk. */
  lemma TakeChunk(s: State, ops0: seq<Op>, m: State, x: nat) returns (ops: seq<Op>, t: State)
    requires Reaches(s, ops0, m) && m.lists[8] == [] && m.lists[MAX_ORDER] != [] && x == m.lists[MAX_ORDER][0]
    ensures Reaches(s, ops, t) && t.lists == m.lists[MAX_ORDER := m.lists[MAX_ORDER][1..]]
    ensures Chunk(m, x) && x + HALF < |m.pd|
    ensures t.pd == m.pd[x + HALF := Desc(Kernel, 8)][x := Desc(Kernel, 8)]
  {
    TakeBoth(m, x);
    ReachesNext(s, ops0, m, Alloc(8, Kernel));
    ops, t := ops0 + [Alloc(8, Kernel)], Step(m, Alloc(8, Kernel));
    ReachesNext(s, ops, t, Alloc(8, Kernel));
    ops, t := ops + [Alloc(8, Kernel)], Step(t, Alloc(8, Kernel));
  }

  /** Both halves of the chunk are in use. */
  predicate HandedOut(s: State, x: nat) {
    x + HALF < |s.pd| && s.pd[x] == Desc(Kernel, 8) == s.pd[x + HALF]
  }

  lemma GiveStep(m: State, x: nat)
    requires Valid(m) && Chunk(m, x) && HandedOut(m, x)
    ensures Legal(m, Dealloc(x + HALF)) && ExactOp(m, Dealloc(x + HALF))
    ensures var t := Step(m, Dealloc(x + HALF));
      t.lists == m.lists[8 := [x + HALF] + m.lists[8]] && t.pd == m.pd[x + HALF := Desc(Free, 8)]
  {
    Halves(m, x);
    InUseIsLoose(m, x + HALF);
    RemarkStep(m, x + HALF);
    assert Step(m, Dealloc(x + HALF)) == TryMergeAndGet(SetDesc(m, x + HALF, Desc(Free, 8)), x + HALF);
  }

  /** Returning the upper half of a chunk whose lower half is in use puts it in front of its list. */
  lemma GiveUpper(s: State, ops0: seq<Op>, m: State, x: nat) returns (ops: seq<Op>, t: State)
    requires Reaches(s, ops0, m) && Chunk(m, x) && HandedOut(m, x)
    ensures Reaches(s, ops, t) && t.lists == m.lists[8 := [x + HALF] + m.lists[8]]
    ensures t.pd == m.pd[x + HALF := Desc(Free, 8)]
  {
    GiveStep(m, x);
    ReachesNext(s, ops0, m, Dealloc(x + HALF));
    ops, t := ops0 + [Dealloc(x + HALF)], Step(m, Dealloc(x + HALF));
  }

  /** Three different chunks share no page. */
  lemma ChunksApart(s: State, x: nat, y: nat)
    requires Wf(s) && Chunk(s, x) && Chunk(s, y) && x != y
    ensures x + HALF != y && y + HALF != x
  {
    PowerOfEight();
    if x < y {
      AlignedGap(x, y, MAX_ORDER);
    } else {
      AlignedGap(y, x, MAX_ORDER);
    }
  }

  /** Each chunk's halves are handed out, six allocations in all. */
  lemma TakeThree(s: State, x: nat, y: nat, z: nat) returns (ops: seq<Op>, t: State)
    requires Valid(s) && s.lists[MAX_ORDER] == [x, y, z] && s.lists[8] == []
    ensures Reaches(s, ops, t) && t.lists[8] == []
    ensures Chunk(s, x) && Chunk(s, y) && Chunk(s, z) && x != y && y != z && x != z
    ensures HandedOut(t, x) && HandedOut(t, y) && HandedOut(t, z)
  {
    ThreeChunks(s, x, y, z);
    ChunksApart(s, x, y);
    ChunksApart(s, x, z);
    ChunksApart(s, y, z);
    ops, t := TakeTwo(s, x, y, z);
    ops, t := TakeChunk(s, ops, t, z);
  }

  lemma TakeTwo(s: State, x: nat, y: nat, z: nat) returns (ops: seq<Op>, t: State)
    requires Valid(s) && s.lists[MAX_ORDER] == [x, y, z] && s.lists[8] == [] && x + HALF != y && y + HALF != x && x != y
    ensures Reaches(s, ops, t) && t.lists[8] == [] && t.lists[MAX_ORDER] == [z]
    ensures HandedOut(t, x) && HandedOut(t, y)
  {
    ops, t := TakeChunk(s, [], s, x);
    assert HandedOut(t, x) && t.lists[MAX_ORDER] == [y, z];
    ops, t := TakeChunk(s, ops, t, y);
    assert t.lists[MAX_ORDER] == [z];
  }

  lemma ThreeChunks(s: State, x: nat, y: nat, z: nat)
    requires Valid(s) && s.lists[MAX_ORDER] == [x, y, z]
    ensures Chunk(s, x) && Chunk(s, y) && Chunk(s, z) && x != y && y != z && x != z
  {
    assert Listed(s, x, MAX_ORDER) && Listed(s, y, MAX_ORDER) && Listed(s, z, MAX_ORDER);
    var l := s.lists[MAX_ORDER];
    assert x == l[0] && y == l[1] && z == l[2];
  }

  /** The three upper halves come back. */
  lemma GiveThree(s: State, ops0: seq<Op>, m: State, x: nat, y: nat, z: nat) returns (ops: seq<Op>, t: State)
    requires Reaches(s, ops0, m) && m.lists[8] == [] && Chunk(m, x) && Chunk(m, y) && Chunk(m, z) && x != y && y != z && x != z
    requires HandedOut(m, x) && HandedOut(m, y) && HandedOut(m, z)
    ensures Reaches(s, ops, t) && t.lists[8] == [z + HALF, y + HALF, x + HALF] && x + HALF < |t.pd|
    ensures t.pd[x] == Desc(Kernel, 8) && t.pd[x + HALF] == Desc(Free, 8)
  {
    ChunksApart(m, x, y);
    ChunksApart(m, x, z);
    ChunksApart(m, y, z);
    ops, t := GiveUpper(s, ops0, m, x);
    ops, t := GiveUpper(s, ops, t, y);
    ops, t := GiveUpper(s, ops, t, z);
  }

  lemma LastOfThree(t: State, x: nat, y: nat, z: nat)
    requires Valid(t) && Chunk(t, x) && t.lists[8] == [z + HALF, y + HALF, x + HALF] && x + HALF < |t.pd|
    requires t.pd[x] == Desc(Kernel, 8) && t.pd[x + HALF] == Desc(Free, 8)
    ensures Legal(t, Dealloc(x)) && StepAsWritten(t, Dealloc(x)) == None
  {
    Halves(t, x);
    StepAsWrittenIff(t, Dealloc(x));
  }

  /** From any state with three whole chunks and no half chunk free, as boot leaves for a memory map
      with three usable chunks: six half-chunk allocations and the return of the three upper halves
      break no list, and then the return of the first lower half, which merges with the last of three
      blocks, does. */
  lemma MergeBreaksTheList(s: State, x: nat, y: nat, z: nat) returns (ops: seq<Op>, t: State)
    requires Valid(s) && s.lists[MAX_ORDER] == [x, y, z] && s.lists[8] == []
    ensures LegalRun(s, ops) && RunAsWritten(s, ops) == Some(t)
    ensures Valid(t) && Legal(t, Dealloc(x)) && StepAsWritten(t, Dealloc(x)) == None
  {
    ops, t := TakeThree(s, x, y, z);
    ops, t := GiveThree(s, ops, t, x, y, z);
    LastOfThree(t, x, y, z);
  }
}
