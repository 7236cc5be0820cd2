/** Sequences without repetition: what the kernel's lists hold, counted and with one element removed. */
module Sequences {
  import opened Wrappers

  ghost predicate NoDup<T>(l: seq<T>) {
    forall a, b :: 0 <= a < b < |l| ==> l[a] != l[b]
  }

  /** `l` without its first `x`. */
  function Without<T(==)>(l: seq<T>, x: T): seq<T> {
    if l == [] then [] else if l[0] == x then l[1..] else [l[0]] + Without(l[1..], x)
  }

  lemma {:induction false} WithoutMembers<T>(l: seq<T>, x: T)
    requires NoDup(l) && x in l
    ensures NoDup(Without(l, x)) && |Without(l, x)| == |l| - 1
    ensures forall y :: y in Without(l, x) <==> y in l && y != x
  {
    assert l == [l[0]] + l[1..];
    if l[0] != x {
      WithoutMembers(l[1..], x);
      var r := Without(l[1..], x);
      assert l[0] !in r && Without(l, x) == [l[0]] + r;
    }
  }

  lemma {:induction false} WithoutAt<T>(l: seq<T>, k: nat)
    requires NoDup(l) && k < |l|
    ensures Without(l, l[k]) == l[..k] + l[k + 1..]
  {
    if k > 0 {
      WithoutAt(l[1..], k - 1);
    }
  }

  /** The removals that the kernel's list carries out correctly: all but that of the last of three or
      more elements. IntrusiveList.ListBase.PopNode proves it for the links themselves. */
  predicate ExactRemoval<T(==)>(l: seq<T>, x: T) {
    |l| < 3 || l[|l| - 1] != x
  }

  /** What is left on a list after its own removal; None when the links no longer spell a list. */
  function RemoveAsWritten<T(==)>(l: seq<T>, x: T): Option<seq<T>> {
    if ExactRemoval(l, x) then Some(Without(l, x)) else None
  }

  function Elements(l: seq<nat>): set<nat> {
    set x | x in l
  }

  /** The numbers from `b` to `b + n`, the end excluded. */
  function Interval(b: nat, n: nat): (r: set<nat>)
    ensures |r| == n && forall j: nat :: j in r <==> b <= j < b + n
  {
    if n == 0 then {} else Interval(b, n - 1) + {b + n - 1}
  }

  lemma {:induction false} NoDupLength(l: seq<nat>)
    requires NoDup(l)
    ensures |Elements(l)| == |l|
  {
    if l != [] {
      NoDupLength(l[1..]);
      assert l == [l[0]] + l[1..];
      assert Elements(l) == {l[0]} + Elements(l[1..]);
    }
  }

  lemma SameMembersSameLength(l: seq<nat>, m: seq<nat>)
    requires NoDup(l) && NoDup(m) && forall x :: x in l <==> x in m
    ensures |l| == |m|
  {
    NoDupLength(l);
    NoDupLength(m);
    assert Elements(l) == Elements(m);
  }
}
