/** The allocator as the kernel runs it: descriptors, lists and counters changed in place.
    Each method leaves memory in the state the matching function of Buddy computes. */
module BuddyAllocator {
  import opened Bits
  import opened Buddy
  import opened Sequences
  import opened Wrappers

  class Allocator {
    ghost var lo: nat
    ghost var hi: nat
    const pd: array<Desc>
    const freelist: array<seq<nat>>
    const count: array<nat>

    ghost function Model(): State
      reads this, pd, freelist, count
    {
      State(lo, hi, pd[..], freelist[..], count[..])
    }

    method SetFlag(b: nat, flag: PageType)
      requires b < pd.Length
      modifies pd
      ensures Model() == SetDesc(old(Model()), b, old(pd[b]).(flag := flag))
    {
      pd[b] := pd[b].(flag := flag);
    }

    method SetOrder(b: nat, order: nat)
      requires b < pd.Length
      modifies pd
      ensures Model() == SetDesc(old(Model()), b, old(pd[b]).(order := order))
    {
      pd[b] := pd[b].(order := order);
    }

    method SetHead(b: nat, flag: PageType, order: nat)
      requires b < pd.Length
      modifies pd
      ensures Model() == SetDesc(old(Model()), b, Desc(flag, order))
    {
      pd[b] := pd[b].(flag := flag);
      pd[b] := pd[b].(order := order);
    }

    method PopFrontBlock(o: nat) returns (b: nat)
      requires o < freelist.Length && o < count.Length && freelist[o] != []
      modifies freelist, count
      ensures b == old(freelist[o][0]) && Model() == PopFront(old(Model()), o)
    {
      b := freelist[o][0];
      freelist[o] := freelist[o][1..];
      count[o] := Wrap(count[o] as int - 1);
    }

    method PushBackBlock(b: nat, o: nat)
      requires o < freelist.Length && o < count.Length
      modifies freelist, count
      ensures Model() == PushBack(old(Model()), b, o)
    {
      freelist[o] := freelist[o] + [b];
      count[o] := Wrap(count[o] + 1);
    }

    method PushFrontBlock(b: nat, o: nat)
      requires o < freelist.Length && o < count.Length
      modifies freelist, count
      ensures Model() == PushFront(old(Model()), b, o)
    {
      freelist[o] := [b] + freelist[o];
      count[o] := Wrap(count[o] + 1);
    }

    method AllocateWithOrder(order: nat, pt: PageType) returns (ptr: Option<nat>)
      requires Valid(Model()) && pt != Tails
      modifies pd, freelist, count
      ensures (Model(), ptr) == Allocate(old(Model()), order, pt)
      decreases MAX_ORDER + 1 - order
    {
      ghost var s := Model();
      if order > MAX_ORDER {
        return None;
      }
      if freelist[order] == [] {
        AllocateBySplitting(s, order, pt);
        ptr := AllocateWithOrder(order + 1, Free);
        if ptr.None? {
          return;
        }
        ghost var s1 := Allocate(s, order + 1, Free).0;
        assert Model() == s1;
        assert pd.Length == |s1.pd| && pd[ptr.value] == s1.pd[ptr.value];
        SplitBig(ptr.value);
      } else {
        AllocateFromFront(s, order, pt);
        var front := PopFrontBlock(order);
        ptr := Some(front);
      }
      SetHead(ptr.value, pt, order);
    }

    method SplitBig(b: nat)
      requires Wf(Model()) && b < pd.Length && 0 < pd[b].order <= MAX_ORDER
      requires BuddyOf(b, pd[b].order - 1) < pd.Length
      modifies pd, freelist, count
      ensures Model() == SplitBlock(old(Model()), b)
    {
      var order := pd[b].order;
      var buddy := BuddyOf(b, order - 1);
      SetHead(buddy, Free, order - 1);
      PushBackBlock(buddy, order - 1);
    }

    /** The buddy leaves its list, its half becomes tail pages and the counter goes down by
        two and up by one. */
    method AbsorbBuddy(b: nat, order: nat) returns (big: nat)
      requires Inv(Model(), {b}) && FreeHead(Model(), b, order) && CanMerge(Model(), b, order)
      modifies pd, freelist, count
      ensures And(b, BuddyOf(b, order)) < pd.Length && BuddyOf(And(b, BuddyOf(b, order)), order) < pd.Length
      ensures big == And(b, BuddyOf(b, order)) && Model() == Merged(old(Model()), b, order)
    {
      MergedDescs(Model(), b, order);
      var buddy := BuddyOf(b, order);
      freelist[order] := Without(freelist[order], buddy);
      big := And(b, buddy);
      SetFlag(BuddyOf(big, order), Tails);
      SetOrder(big, order + 1);
      count[order] := Wrap(count[order] as int - 2);
      count[order] := Wrap(count[order] + 1);
    }

    method TryMerge(b: nat)
      requires Inv(Model(), {b}) && Head(Model(), b) && pd[b].flag == Free
      modifies pd, freelist, count
      ensures Model() == TryMergeAndGet(old(Model()), b)
      decreases MAX_ORDER + 1 - pd[b].order, 0
    {
      ghost var s := Model();
      var order := pd[b].order;
      if order < MAX_ORDER {
        BuddyFacts(s, b, order);
        var buddy := BuddyOf(b, order);
        if pd[buddy].flag == Free && pd[buddy].order == order {
          MergeStep(s, b, order);
          var big := AbsorbBuddy(b, order);
          Deallocate(big);
          return;
        }
      }
      SettleStep(s, b, order);
      PushFrontBlock(b, order);
    }

    method Deallocate(b: nat)
      requires Inv(Model(), {b}) && Head(Model(), b)
      modifies pd, freelist, count
      ensures Model() == DeallocateBlock(old(Model()), b)
      decreases MAX_ORDER + 1 - pd[b].order, 1
    {
      RemarkStep(Model(), b);
      SetFlag(b, Free);
      TryMerge(b);
    }
  }
}
