/** From the firmware memory map to the first free blocks: the map is sorted, then walked in
    steps of 2 MB. */
module Boot {
  import opened Bits
  import opened Sequences
  import opened Wrappers
  import opened Buddy
  import opened BuddyAllocator

  /** One entry of the firmware map; kind 1 is usable memory. */
  datatype Region = Region(base: nat, length: nat, kind: nat) {
    function End(): nat {
      base + length
    }

    /** Holds both addresses, the last one strictly. */
    predicate RangeIn(first: nat, last: nat) {
      base <= first && last < base + length
    }
  }

  const FREE_KIND: nat := 1

  // ---- sorting the map ----

  predicate SortedUpTo(s: seq<Region>, n: nat)
    requires n <= |s|
  {
    forall i, j :: 0 <= i < j < n ==> s[i].base <= s[j].base
  }

  predicate SortedByBase(s: seq<Region>) {
    SortedUpTo(s, |s|)
  }

  predicate Apart(a: Region, b: Region) {
    a.base + a.length <= b.base || b.base + b.length <= a.base
  }

  predicate Disjoint(s: seq<Region>) {
    forall i, j :: 0 <= i < j < |s| ==> Apart(s[i], s[j])
  }

  /** `r` is `s` with element `from` moved down to position `to`, the ones between shifted up. */
  ghost predicate MovedDown(s: seq<Region>, r: seq<Region>, to: nat, from: nat)
    requires to <= from < |s|
  {
    && |r| == |s|
    && r[to] == s[from]
    && (forall i :: 0 <= i < |s| && (i < to || i > from) ==> r[i] == s[i])
    && (forall i :: to < i <= from ==> r[i] == s[i - 1])
  }

  lemma MovedDownMultiset(s: seq<Region>, r: seq<Region>, to: nat, from: nat)
    requires to <= from < |s| && MovedDown(s, r, to, from)
    ensures multiset(r) == multiset(s)
  {
    var a, b, c := s[..to], s[to..from], s[from + 1..];
    assert s == (a + b) + ([s[from]] + c);
    assert r == (a + [s[from]]) + (b + c);
    SwapMultiset(a, b, [s[from]], c);
  }

  lemma SwapMultiset(a: seq<Region>, b: seq<Region>, x: seq<Region>, c: seq<Region>)
    ensures multiset((a + b) + (x + c)) == multiset((a + x) + (b + c))
  {
  }

  lemma MovedDownDisjoint(s: seq<Region>, r: seq<Region>, to: nat, from: nat)
    requires to <= from < |s| && MovedDown(s, r, to, from) && Disjoint(s)
    ensures Disjoint(r)
  {
    forall i, j | 0 <= i < j < |r|
      ensures Apart(r[i], r[j])
    {
      var i' := if i < to || i > from then i else if i == to then from else i - 1;
      var j' := if j < to || j > from then j else if j == to then from else j - 1;
      assert r[i] == s[i'] && r[j] == s[j'];
      if i' < j' {
        assert Apart(s[i'], s[j']);
      } else {
        assert Apart(s[j'], s[i']);
      }
    }
  }

  method InsertionSort(a: array<Region>)
    modifies a
    ensures SortedByBase(a[..])
    ensures multiset(a[..]) == old(multiset(a[..]))
    ensures Disjoint(old(a[..])) ==> Disjoint(a[..])
  {
    if a.Length <= 1 {
      return;
    }
    var sorted := 1;
    while sorted != a.Length
      invariant 1 <= sorted <= a.Length
      invariant SortedUpTo(a[..], sorted)
      invariant multiset(a[..]) == old(multiset(a[..]))
      invariant Disjoint(old(a[..])) ==> Disjoint(a[..])
      decreases a.Length - sorted
    {
      if !(a[sorted - 1].base < a[sorted].base) {
        Sink(a, sorted);
      }
      sorted := sorted + 1;
    }
  }

  /** The inner loop of the sort: element `sorted` sinks to its place among the ones before it. */
  method Sink(a: array<Region>, sorted: nat)
    requires 1 <= sorted < a.Length && SortedUpTo(a[..], sorted)
    modifies a
    ensures SortedUpTo(a[..], sorted + 1)
    ensures multiset(a[..]) == old(multiset(a[..]))
    ensures Disjoint(old(a[..])) ==> Disjoint(a[..])
  {
    ghost var s := a[..];
    var cur := sorted;
    var temp := a[sorted];
    while true
      invariant 0 < cur <= sorted
      invariant forall i :: 0 <= i < a.Length && (i < cur || i > sorted) ==> a[i] == s[i]
      invariant forall i :: cur < i <= sorted ==> a[i] == s[i - 1] && temp.base < a[i].base
      decreases cur
    {
      cur := cur - 1;
      if !(temp.base < a[cur].base) {
        cur := cur + 1;
        break;
      }
      a[cur + 1] := a[cur];
      if cur == 0 {
        break;
      }
    }
    a[cur] := temp;
    SinkDone(s, a[..], cur, sorted);
  }

  lemma SinkDone(s: seq<Region>, r: seq<Region>, cur: nat, sorted: nat)
    requires cur <= sorted < |s| && SortedUpTo(s, sorted) && MovedDown(s, r, cur, sorted)
    requires cur == 0 || s[cur - 1].base <= s[sorted].base
    requires forall i :: cur < i <= sorted ==> s[sorted].base < r[i].base
    ensures SortedUpTo(r, sorted + 1)
    ensures multiset(r) == multiset(s)
    ensures Disjoint(s) ==> Disjoint(r)
  {
    MovedDownMultiset(s, r, cur, sorted);
    if Disjoint(s) {
      MovedDownDisjoint(s, r, cur, sorted);
    }
  }

  // ---- the walk ----

  const CHUNK_PAGES: nat := 512

  /** 2 MB in bytes, 4 KB pages. */
  function ChunkAddress(start: nat, c: nat): nat {
    start + 0x20_0000 * c
  }

  function PageIndex(address: nat): nat {
    address / 0x1000
  }

  /** The address lies in some region of the map. */
  ghost predicate InSomeRegion(m: seq<Region>, address: nat) {
    exists i :: 0 <= i < |m| && m[i].base <= address < m[i].base + m[i].length
  }

  /** One usable region holds the 2 MB chunk and the byte after it. */
  ghost predicate ChunkUsable(m: seq<Region>, address: nat) {
    exists i :: 0 <= i < |m| && m[i].kind == 1 && m[i].base <= address && address + 0x20_0000 < m[i].base + m[i].length
  }

  /** The heads of the usable chunks among the first `k`, in address order. */
  ghost function UsableHeads(m: seq<Region>, start: nat, k: nat): seq<nat> {
    if k == 0 then []
    else
      var heads := UsableHeads(m, start, k - 1);
      var a := ChunkAddress(start, k - 1);
      if ChunkUsable(m, a) then heads + [PageIndex(a)] else heads
  }

  /** Chunk `c` is one block of the largest order: a head, marked by what it holds, then tails. */
  ghost predicate ChunkMarked(m: seq<Region>, start: nat, pd: seq<Desc>, c: nat) {
    var p := PageIndex(ChunkAddress(start, c));
    && p + CHUNK_PAGES <= |pd|
    && pd[p] == Desc(if ChunkUsable(m, ChunkAddress(start, c)) then Free else Reserved, MAX_ORDER)
    && forall j {:trigger pd[j]} :: p < j < p + CHUNK_PAGES ==> pd[j].flag == Tails
  }

  /** Two regions of a disjoint map that hold the same address are the same entry. */
  lemma RegionUnique(m: seq<Region>, i: nat, j: nat, address: nat)
    requires Disjoint(m) && i < |m| && j < |m|
    requires m[i].RangeIn(address, address) && m[j].RangeIn(address, address)
    ensures i == j
  {
  }

  lemma UsableByRegion(m: seq<Region>, i: nat, address: nat)
    requires Disjoint(m) && i < |m| && m[i].RangeIn(address, address)
    ensures ChunkUsable(m, address) <==> m[i].kind == FREE_KIND && m[i].RangeIn(address, address + 0x20_0000)
  {
    if j :| 0 <= j < |m| && m[j].kind == FREE_KIND && m[j].RangeIn(address, address + 0x20_0000) {
      RegionUnique(m, i, j, address);
    }
  }

  /** Entries before the one that holds an address end at or below it. */
  lemma EarlierRegionsEnd(m: seq<Region>, i: nat, j: nat, address: nat)
    requires SortedByBase(m) && Disjoint(m) && j < i < |m| && m[i].RangeIn(address, address)
    ensures m[j].End() <= address
  {
    assert Apart(m[j], m[i]) && m[j].base <= m[i].base;
  }

  lemma {:induction false} UsableHeadsMembers(m: seq<Region>, start: nat, k: nat)
    ensures forall p {:trigger p in UsableHeads(m, start, k)} :: p in UsableHeads(m, start, k) <==>
              exists c: nat :: c < k && ChunkUsable(m, ChunkAddress(start, c)) && p == PageIndex(ChunkAddress(start, c))
    ensures NoDup(UsableHeads(m, start, k))
  {
    if k > 0 {
      UsableHeadsMembers(m, start, k - 1);
      var heads, a := UsableHeads(m, start, k - 1), ChunkAddress(start, k - 1);
      assert PageIndex(a) !in heads;
      assert UsableHeads(m, start, k) == if ChunkUsable(m, a) then heads + [PageIndex(a)] else heads;
    }
  }

  lemma ChunkAligned(q: nat)
    ensures Aligned(512 * q, MAX_ORDER) && Pow2(MAX_ORDER) == 512
  {
    assert Pow2(9) == 2 * Pow2(8) == 4 * Pow2(7) == 8 * Pow2(6) == 16 * Pow2(5) == 32 * Pow2(4) == 64 * Pow2(3);
    AlignedIsMultiple(512 * q, MAX_ORDER);
    assert 512 * q == q * Pow2(MAX_ORDER);
  }

  /** The descriptors and lists the walk leaves behind, as an allocator state. */
  ghost predicate Walked(m: seq<Region>, start: nat, k: nat, s: State) {
    && |s.lists| == MAX_ORDER + 1 == |s.count|
    && s.lo == PageIndex(start) && s.hi == PageIndex(ChunkAddress(start, k)) <= |s.pd|
    && (forall c: nat {:trigger ChunkMarked(m, start, s.pd, c)} :: c < k ==> ChunkMarked(m, start, s.pd, c))
    && s.lists[MAX_ORDER] == UsableHeads(m, start, k)
    && (forall o :: 0 <= o < MAX_ORDER ==> s.lists[o] == [] && s.count[o] == 0)
    && s.count[MAX_ORDER] == Wrap(|s.lists[MAX_ORDER]|)
  }

  lemma WalkedHead(m: seq<Region>, q: nat, k: nat, s: State, j: nat) returns (c: nat)
    requires Walked(m, 0x20_0000 * q, k, s) && s.lo <= j < s.hi
    ensures c < k && s.lo <= 512 * (q + c) <= j < 512 * (q + c) + 512 <= s.hi
    ensures PageIndex(ChunkAddress(0x20_0000 * q, c)) == 512 * (q + c)
    ensures s.pd[512 * (q + c)] == Desc(if ChunkUsable(m, ChunkAddress(0x20_0000 * q, c)) then Free else Reserved, MAX_ORDER)
    ensures j != 512 * (q + c) ==> s.pd[j].flag == Tails
  {
    c := (j - s.lo) / 512;
    assert ChunkMarked(m, 0x20_0000 * q, s.pd, c);
  }

  lemma WalkedBounds(m: seq<Region>, q: nat, k: nat, s: State)
    requires Walked(m, 0x20_0000 * q, k, s)
    ensures Wf(s) && s.lo == 512 * q && s.hi == 512 * (q + k)
  {
    ChunkAligned(q);
    ChunkAligned(q + k);
  }

  lemma WalkedHeads(m: seq<Region>, q: nat, k: nat, s: State, i: nat)
    requires Walked(m, 0x20_0000 * q, k, s) && Wf(s) && Head(s, i)
    ensures s.pd[i].order == MAX_ORDER && Aligned(i, MAX_ORDER) && i + 512 <= s.hi && Pow2(MAX_ORDER) == 512
  {
    var c := WalkedHead(m, q, k, s, i);
    ChunkAligned(q + c);
  }

  lemma WalkedTails(m: seq<Region>, q: nat, k: nat, s: State, i: nat, j: nat)
    requires Walked(m, 0x20_0000 * q, k, s) && Wf(s) && Head(s, i) && i < j < i + 512 <= s.hi
    ensures s.pd[j].flag == Tails
  {
    var c := WalkedHead(m, q, k, s, i);
    var d := WalkedHead(m, q, k, s, j);
  }

  lemma WalkedCovers(m: seq<Region>, q: nat, k: nat, s: State, j: nat)
    requires Walked(m, 0x20_0000 * q, k, s) && Wf(s) && s.lo <= j < s.hi
    ensures Covered(s, j)
  {
    ChunkAligned(q);
    var c := WalkedHead(m, q, k, s, j);
    assert Covers(s, 512 * (q + c), j);
  }

  lemma WalkedPartition(m: seq<Region>, q: nat, k: nat, s: State)
    requires Walked(m, 0x20_0000 * q, k, s)
    ensures Wf(s) && Partition(s)
  {
    WalkedBounds(m, q, k, s);
    forall i: nat | Head(s, i)
      ensures s.pd[i].order == MAX_ORDER && Aligned(i, MAX_ORDER)
    {
      WalkedHeads(m, q, k, s, i);
    }
    forall i: nat, j: nat | Covers(s, i, j) && i != j
      ensures s.lo <= j < s.hi && s.pd[j].flag == Tails
    {
      WalkedHeads(m, q, k, s, i);
      WalkedTails(m, q, k, s, i, j);
    }
    forall j: nat | s.lo <= j < s.hi
      ensures Covered(s, j)
    {
      WalkedCovers(m, q, k, s, j);
    }
  }

  lemma ChunkPage(q: nat, c: nat)
    ensures PageIndex(ChunkAddress(0x20_0000 * q, c)) == 512 * (q + c)
  {
  }

  /** The head of chunk `c` is on the list exactly when the chunk is usable. */
  lemma WalkedChunk(m: seq<Region>, q: nat, k: nat, s: State, c: nat, i: nat)
    requires Walked(m, 0x20_0000 * q, k, s) && c < k && i == 512 * (q + c)
    ensures Listed(s, i, MAX_ORDER) <==> ChunkUsable(m, ChunkAddress(0x20_0000 * q, c))
    ensures i < |s.pd| && s.pd[i] == Desc(if ChunkUsable(m, ChunkAddress(0x20_0000 * q, c)) then Free else Reserved, MAX_ORDER)
    ensures s.lo <= i < s.hi
  {
    var start := 0x20_0000 * q;
    ChunkPage(q, 0);
    ChunkPage(q, c);
    ChunkPage(q, k);
    assert ChunkMarked(m, start, s.pd, c);
    UsableHeadsMembers(m, start, k);
    if d: nat :| d < k && ChunkUsable(m, ChunkAddress(start, d)) && i == PageIndex(ChunkAddress(start, d)) {
      ChunkPage(q, d);
      assert d == c;
    }
  }

  lemma WalkedListed(m: seq<Region>, q: nat, k: nat, s: State, i: nat)
    requires Walked(m, 0x20_0000 * q, k, s) && Wf(s)
    ensures Listed(s, i, MAX_ORDER) <==> FreeHead(s, i, MAX_ORDER)
    ensures Head(s, i) ==> s.pd[i].order == MAX_ORDER
  {
    if Head(s, i) {
      var c := WalkedHead(m, q, k, s, i);
      WalkedChunk(m, q, k, s, c, i);
    } else if Listed(s, i, MAX_ORDER) {
      UsableHeadsMembers(m, 0x20_0000 * q, k);
      var c: nat :| c < k && i == PageIndex(ChunkAddress(0x20_0000 * q, c));
      ChunkPage(q, c);
      WalkedChunk(m, q, k, s, c, i);
    }
  }

  /** The walk leaves a state in which every buddy invariant holds. */
  lemma WalkedIsValid(m: seq<Region>, q: nat, k: nat, s: State)
    requires Walked(m, 0x20_0000 * q, k, s)
    ensures Valid(s)
  {
    WalkedPartition(m, q, k, s);
    forall i: nat
      ensures Listed(s, i, MAX_ORDER) <==> FreeHead(s, i, MAX_ORDER)
      ensures Head(s, i) ==> s.pd[i].order == MAX_ORDER
    {
      WalkedListed(m, q, k, s, i);
    }
    assert NoDup(s.lists[MAX_ORDER]) by {
      UsableHeadsMembers(m, 0x20_0000 * q, k);
    }
    assert forall i: nat, o: nat :: Listed(s, i, o) ==> o == MAX_ORDER;
  }

  lemma WalkExtend(m: seq<Region>, q: nat, k: nat, s: State, t: State)
    requires Walked(m, 0x20_0000 * q, k, s) && ChunkMarked(m, 0x20_0000 * q, t.pd, k)
    requires |t.pd| == |s.pd| && t.lo == s.lo && t.hi == 512 * (q + k + 1)
    requires forall j {:trigger t.pd[j]} :: 0 <= j < 512 * (q + k) ==> t.pd[j] == s.pd[j]
    requires var p := 512 * (q + k); var u := if ChunkUsable(m, ChunkAddress(0x20_0000 * q, k)) then PushBack(s, p, MAX_ORDER) else s;
      t.lists == u.lists && t.count == u.count
    ensures Walked(m, 0x20_0000 * q, k + 1, t)
  {
    var start := 0x20_0000 * q;
    assert PageIndex(ChunkAddress(start, k)) == 512 * (q + k);
    assert PageIndex(ChunkAddress(start, k + 1)) == 512 * (q + k + 1);
    forall c: nat | c < k + 1
      ensures ChunkMarked(m, start, t.pd, c)
    {
      if c < k {
        assert ChunkMarked(m, start, s.pd, c);
        assert PageIndex(ChunkAddress(start, c)) == 512 * (q + c);
      }
    }
    CountWraps(|s.lists[MAX_ORDER]|);
  }

  /** Marks one block: the head takes its type and order, every other page becomes a tail. */
  method MarkPages(pd: array<Desc>, pos: nat, flag: PageType, order: nat)
    requires pos + Pow2(order) <= pd.Length
    modifies pd
    ensures pd[pos] == Desc(flag, order)
    ensures forall j :: pos < j < pos + Pow2(order) ==> pd[j] == old(pd[j]).(flag := Tails)
    ensures forall j :: 0 <= j < pd.Length && !(pos <= j < pos + Pow2(order)) ==> pd[j] == old(pd[j])
  {
    pd[pos] := Desc(flag, order);
    var i := 1;
    while i < Pow2(order)
      invariant 1 <= i <= Pow2(order)
      invariant pd[pos] == Desc(flag, order)
      invariant forall j :: pos < j < pos + i ==> pd[j] == old(pd[j]).(flag := Tails)
      invariant forall j :: 0 <= j < pd.Length && !(pos <= j < pos + i) ==> pd[j] == old(pd[j])
    {
      pd[pos + i] := pd[pos + i].(flag := Tails);
      i := i + 1;
    }
  }

  /** The walk gets to chunk `k`: no chunk boundary up to there lies outside every region. */
  ghost predicate Visited(m: seq<Region>, start: nat, k: nat) {
    forall c {:trigger ChunkAddress(start, c)} :: 0 <= c <= k ==> InSomeRegion(m, ChunkAddress(start, c))
  }

  /** Room in the descriptor array for every chunk the walk visits. */
  ghost predicate DescriptorsReach(m: seq<Region>, start: nat, pages: nat) {
    forall k: nat {:trigger Visited(m, start, k)} ::
      Visited(m, start, k) ==> PageIndex(ChunkAddress(start, k)) + CHUNK_PAGES <= pages
  }

  /** A freshly constructed allocator: ten empty lists, ten zero counters. */
  ghost predicate Empty(a: Allocator)
    reads a, a.freelist, a.count
  {
    && a.freelist.Length == MAX_ORDER + 1 == a.count.Length
    && forall o :: 0 <= o <= MAX_ORDER ==> a.freelist[o] == [] && a.count[o] == 0
  }

  /** Marks chunk `k` and, when usable, puts it on the list of the largest order. */
  method AddChunk(a: Allocator, curPd: nat, usable: bool, ghost m: seq<Region>, ghost q: nat, ghost k: nat)
    requires Walked(m, 0x20_0000 * q, k, a.Model())
    requires curPd == 512 * (q + k) && curPd + 512 <= a.pd.Length
    requires usable <==> ChunkUsable(m, ChunkAddress(0x20_0000 * q, k))
    modifies a`hi, a.pd, a.freelist, a.count
    ensures Walked(m, 0x20_0000 * q, k + 1, a.Model())
    ensures forall j :: 0 <= j < a.pd.Length && !(curPd <= j < curPd + 512) ==> a.pd[j] == old(a.pd[j])
  {
    ghost var s := a.Model();
    ChunkAligned(0);
    if usable {
      MarkPages(a.pd, curPd, Free, MAX_ORDER);
      a.PushBackBlock(curPd, MAX_ORDER);
    } else {
      MarkPages(a.pd, curPd, Reserved, MAX_ORDER);
    }
    a.hi := curPd + 512;
    WalkExtend(m, q, k, s, a.Model());
  }

  /** Skips to the first entry at or after `begin` that holds the address. */
  method FindRegion(entries: array<Region>, begin: nat, address: nat) returns (r: nat)
    requires begin <= entries.Length
    ensures begin <= r <= entries.Length
    ensures r < entries.Length ==> entries[r].RangeIn(address, address)
    ensures forall i :: begin <= i < r ==> !entries[i].RangeIn(address, address)
  {
    r := begin;
    while !(r == entries.Length || entries[r].RangeIn(address, address))
      invariant begin <= r <= entries.Length
      invariant forall i :: begin <= i < r ==> !entries[i].RangeIn(address, address)
    {
      r := r + 1;
    }
  }

  lemma NothingHolds(m: seq<Region>, begin: nat, last: nat, address: nat)
    requires SortedByBase(m) && Disjoint(m) && begin < |m| && m[begin].RangeIn(last, last) && last <= address
    requires forall i :: begin <= i < |m| ==> !m[i].RangeIn(address, address)
    ensures !InSomeRegion(m, address)
  {
    forall i | 0 <= i < |m|
      ensures !m[i].RangeIn(address, address)
    {
      if i < begin {
        EarlierRegionsEnd(m, begin, i, last);
      }
    }
  }

  lemma NothingWalkedYet(m: seq<Region>, q: nat, s: State)
    requires |s.lists| == MAX_ORDER + 1 == |s.count| && s.lo == s.hi == 512 * q <= |s.pd|
    requires forall o :: 0 <= o <= MAX_ORDER ==> s.lists[o] == [] && s.count[o] == 0
    ensures Walked(m, 0x20_0000 * q, 0, s)
  {
  }

  /** Only the descriptors of the first `k` chunks from `start` on were written. */
  ghost predicate LeavesAlone(was: seq<Desc>, now: seq<Desc>, start: nat, k: nat) {
    |was| == |now| && forall j :: 0 <= j < |was| && !(start / 0x1000 <= j < (start + 0x20_0000 * k) / 0x1000) ==> now[j] == was[j]
  }

  lemma LeavesAloneNext(was: seq<Desc>, mid: seq<Desc>, now: seq<Desc>, q: nat, k: nat)
    requires LeavesAlone(was, mid, 0x20_0000 * q, k) && |now| == |mid|
    requires forall j :: 0 <= j < |mid| && !(512 * (q + k) <= j < 512 * (q + k) + 512) ==> now[j] == mid[j]
    ensures LeavesAlone(was, now, 0x20_0000 * q, k + 1)
  {
  }

  /** One round of the walk, for chunk `k` at `address` in entry `begin`. Returns the entry that holds
      the next chunk boundary, or the end of the map when none does. */
  method WalkChunk(a: Allocator, entries: array<Region>, begin: nat, address: nat, curPd: nat,
                   ghost q: nat, ghost k: nat, ghost was: seq<Desc>) returns (next: nat)
    requires SortedByBase(entries[..]) && Disjoint(entries[..])
    requires begin < entries.Length && entries[begin].RangeIn(address, address)
    requires address == ChunkAddress(0x20_0000 * q, k) && curPd == 512 * (q + k) && curPd + CHUNK_PAGES <= a.pd.Length
    requires Walked(entries[..], 0x20_0000 * q, k, a.Model())
    requires LeavesAlone(was, a.pd[..], 0x20_0000 * q, k)
    modifies a`hi, a.pd, a.freelist, a.count
    ensures Walked(entries[..], 0x20_0000 * q, k + 1, a.Model())
    ensures LeavesAlone(was, a.pd[..], 0x20_0000 * q, k + 1)
    ensures begin <= next <= entries.Length
    ensures next < entries.Length ==> entries[next].RangeIn(address + 0x20_0000, address + 0x20_0000)
    ensures next == entries.Length ==> !InSomeRegion(entries[..], address + 0x20_0000)
  {
    ghost var m := entries[..];
    UsableByRegion(m, begin, address);
    var whole := entries[begin].RangeIn(address, address + 0x20_0000);
    AddChunk(a, curPd, whole && entries[begin].kind == FREE_KIND, m, q, k);
    LeavesAloneNext(was, old(a.pd[..]), a.pd[..], q, k);
    if whole {
      next := begin;
    } else {
      next := FindRegion(entries, begin, address + 0x20_0000);
      if next == entries.Length {
        NothingHolds(m, begin, address, address + 0x20_0000);
      }
    }
  }

  /** The walk from the entry that holds `start`, one chunk after the other, to the first chunk
      boundary that no region holds; `past` when the next chunk's descriptors are outside the array. */
  method WalkMap(a: Allocator, start: nat, entries: array<Region>, begin0: nat) returns (k: nat, past: bool)
    requires start % 0x20_0000 == 0 && SortedByBase(entries[..]) && Disjoint(entries[..])
    requires begin0 < entries.Length && entries[begin0].RangeIn(start, start)
    requires Walked(entries[..], start, 0, a.Model()) && Visited(entries[..], start, 0)
    modifies a, a.pd, a.freelist, a.count
    ensures entries[..] == old(entries[..]) && LeavesAlone(old(a.pd[..]), a.pd[..], start, k)
    ensures past ==> Visited(entries[..], start, k) && PageIndex(ChunkAddress(start, k)) + CHUNK_PAGES > a.pd.Length
    ensures !past ==> k >= 1 && Walked(entries[..], start, k, a.Model()) && Visited(entries[..], start, k - 1)
    ensures !past ==> !InSomeRegion(entries[..], ChunkAddress(start, k)) && PageIndex(ChunkAddress(start, k)) <= a.pd.Length
  {
    var n := entries.Length;
    ghost var m := entries[..];
    ghost var q := start / 0x20_0000;
    var begin, address, curPd := begin0, start, PageIndex(start);
    k, past := 0, false;
    while true
      invariant begin < n && entries[begin].RangeIn(address, address)
      invariant entries[..] == m && !past
      invariant address == ChunkAddress(start, k) && curPd == 512 * (q + k)
      invariant Walked(m, start, k, a.Model())
      invariant Visited(m, start, k)
      invariant LeavesAlone(old(a.pd[..]), a.pd[..], start, k)
      decreases n - begin, entries[begin].End() - address
    {
      if curPd + CHUNK_PAGES > a.pd.Length {
        past := true;
        return;
      }
      var next := WalkChunk(a, entries, begin, address, curPd, q, k, old(a.pd[..]));
      curPd := curPd + 512;
      address := address + 0x20_0000;
      k := k + 1;
      if next == n {
        break;
      }
      begin := next;
      VisitNext(m, start, k, begin);
    }
  }

  lemma VisitNext(m: seq<Region>, start: nat, k: nat, i: nat)
    requires k >= 1 && Visited(m, start, k - 1) && i < |m| && m[i].RangeIn(ChunkAddress(start, k), ChunkAddress(start, k))
    ensures Visited(m, start, k)
  {
  }

  lemma ReachByEnd(m: seq<Region>, start: nat, k: nat, pages: nat)
    requires start % 0x20_0000 == 0 && k >= 1 && Visited(m, start, k - 1) && !InSomeRegion(m, ChunkAddress(start, k))
    ensures DescriptorsReach(m, start, pages) <==> PageIndex(ChunkAddress(start, k)) <= pages
  {
    assert forall c: nat :: PageIndex(ChunkAddress(start, c)) + CHUNK_PAGES == PageIndex(ChunkAddress(start, c + 1));
    forall c: nat | Visited(m, start, c)
      ensures c < k
    {
    }
  }

  /** How building the allocator ends. NoRegion: no region holds the first address, and the kernel
      panics. PastDescriptors: the code is about to mark pages outside its descriptor array. */
  datatype Building = Built(chunks: nat) | NoRegion | PastDescriptors(chunk: nat)

  /** Walks the sorted map from `start`. */
  method MakeBuddy(a: Allocator, start: nat, entries: array<Region>) returns (r: Building)
    requires start % 0x20_0000 == 0 && Empty(a)
    requires SortedByBase(entries[..]) && Disjoint(entries[..])
    modifies a, a.pd, a.freelist, a.count
    ensures entries[..] == old(entries[..])
    ensures r.NoRegion? <==> !InSomeRegion(entries[..], start)
    ensures r.NoRegion? ==> a.Model() == old(a.Model())
    ensures r.PastDescriptors? <==> InSomeRegion(entries[..], start) && !DescriptorsReach(entries[..], start, a.pd.Length)
    ensures r.PastDescriptors? ==>
      Visited(entries[..], start, r.chunk) && PageIndex(ChunkAddress(start, r.chunk)) + CHUNK_PAGES > a.pd.Length
    ensures r.Built? ==> var k := r.chunks; var m := entries[..];
      && 1 <= k && Walked(m, start, k, a.Model()) && Valid(a.Model())
      && (forall c :: 0 <= c < k ==> InSomeRegion(m, ChunkAddress(start, c)))
      && !InSomeRegion(m, ChunkAddress(start, k)) && LeavesAlone(old(a.pd[..]), a.pd[..], start, k)
  {
    ghost var m := entries[..];
    ghost var q := start / 0x20_0000;
    var begin := FindRegion(entries, 0, start);
    if begin == entries.Length {
      return NoRegion;
    }
    assert Visited(m, start, 0);
    if PageIndex(start) > a.pd.Length {
      return PastDescriptors(0);
    }
    a.lo, a.hi := PageIndex(start), PageIndex(start);
    NothingWalkedYet(m, q, a.Model());
    var k, past := WalkMap(a, start, entries, begin);
    if past {
      return PastDescriptors(k);
    }
    ReachByEnd(m, start, k, a.pd.Length);
    WalkedIsValid(m, q, k, a.Model());
    r := Built(k);
  }

  /** The end of the last usable region, which the kernel sizes its descriptor array by. */
  function LastUsableEnd(m: seq<Region>): nat {
    if m == [] then 0
    else if m[|m| - 1].kind == FREE_KIND then m[|m| - 1].End()
    else LastUsableEnd(m[..|m| - 1])
  }

  lemma {:induction false} LastUsableIsLast(m: seq<Region>, i: nat)
    requires i < |m| && m[i].kind == 1 && forall j :: i < j < |m| ==> m[j].kind != 1
    ensures LastUsableEnd(m) == m[i].base + m[i].length
  {
    if i < |m| - 1 {
      LastUsableIsLast(m[..|m| - 1], i);
    }
  }

  /** With that size, the descriptors reach exactly when the walk ends at or below that end. */
  lemma SizedDescriptorsReachIff(m: seq<Region>, start: nat, k: nat)
    requires start % 0x20_0000 == 0 && k >= 1 && Visited(m, start, k - 1) && !InSomeRegion(m, ChunkAddress(start, k))
    ensures DescriptorsReach(m, start, LastUsableEnd(m) / 0x1000) <==> start + 0x20_0000 * k <= LastUsableEnd(m)
  {
    var address, end := ChunkAddress(start, k), LastUsableEnd(m);
    ReachByEnd(m, start, k, end / 0x1000);
    WholePages(start / 0x20_0000, k, address);
    PagesInOrder(address, end);
  }

  lemma WholePages(q: nat, k: nat, address: nat)
    requires address == 0x20_0000 * q + 0x20_0000 * k
    ensures address % 0x1000 == 0
  {
    assert address == 0x1000 * (0x200 * (q + k));
  }

  lemma PagesInOrder(a: nat, b: nat)
    requires a % 0x1000 == 0
    ensures a / 0x1000 <= b / 0x1000 <==> a <= b
  {
  }

  /** Usable memory up to 0x7ffe_0000 and a reserved region behind it up to 2 GB: the last chunk's
      descriptors are outside the array. */
  lemma SizedTooSmall()
    ensures var m := [Region(0x10_0000, 0x7fee_0000, 1), Region(0x7ffe_0000, 0x2_0000, 2)];
      SortedByBase(m) && Disjoint(m) && !DescriptorsReach(m, 0x7fe0_0000, LastUsableEnd(m) / 0x1000)
  {
    var m := [Region(0x10_0000, 0x7fee_0000, 1), Region(0x7ffe_0000, 0x2_0000, 2)];
    assert m[0].RangeIn(0x7fe0_0000, 0x7fe0_0000);
    assert LastUsableEnd(m) == 0x7ffe_0000 by {
      assert m[..1] == [m[0]];
    }
    assert Visited(m, 0x7fe0_0000, 0);
  }

  /** Sorting changes neither which addresses are covered nor which chunks are usable. */
  lemma SortingKeepsMap(m: seq<Region>, r: seq<Region>)
    requires multiset(m) == multiset(r)
    ensures forall x: nat {:trigger InSomeRegion(m, x)} {:trigger InSomeRegion(r, x)} :: InSomeRegion(m, x) <==> InSomeRegion(r, x)
    ensures forall x: nat {:trigger ChunkUsable(m, x)} {:trigger ChunkUsable(r, x)} :: ChunkUsable(m, x) <==> ChunkUsable(r, x)
  {
    assert forall e :: e in m <==> e in multiset(m);
    assert forall e :: e in r <==> e in multiset(r);
    forall x: nat
      ensures InSomeRegion(m, x) <==> exists e :: e in m && e.base <= x < e.base + e.length
      ensures InSomeRegion(r, x) <==> exists e :: e in r && e.base <= x < e.base + e.length
      ensures ChunkUsable(m, x) <==> exists e :: e in m && e.kind == 1 && e.base <= x && x + 0x20_0000 < e.base + e.length
      ensures ChunkUsable(r, x) <==> exists e :: e in r && e.kind == 1 && e.base <= x && x + 0x20_0000 < e.base + e.length
    {
    }
  }

  lemma SortingKeepsReach(m: seq<Region>, r: seq<Region>, start: nat, pages: nat)
    requires multiset(m) == multiset(r)
    ensures DescriptorsReach(m, start, pages) <==> DescriptorsReach(r, start, pages)
    ensures forall k: nat {:trigger Visited(r, start, k)} :: Visited(m, start, k) <==> Visited(r, start, k)
  {
    SortingKeepsMap(m, r);
    forall k: nat
      ensures Visited(m, start, k) <==> Visited(r, start, k)
    {
      assert forall c {:trigger ChunkAddress(start, c)} :: 0 <= c <= k ==>
        (InSomeRegion(m, ChunkAddress(start, c)) <==> InSomeRegion(r, ChunkAddress(start, c)));
    }
  }

  /** A chunk that lies wholly inside a usable region is still lost to the allocator exactly when the
      region ends where the chunk does: the test asks for one byte more. */
  lemma ChunkLostAtRegionEnd(m: seq<Region>, i: nat, address: nat)
    requires Disjoint(m) && i < |m| && m[i].kind == 1
    requires m[i].base <= address && address + 0x20_0000 <= m[i].base + m[i].length
    ensures !ChunkUsable(m, address) <==> m[i].base + m[i].length == address + 0x20_0000
  {
    UsableByRegion(m, i, address);
  }

  /** A single usable region from 2 MB to 4 MB: its one whole chunk is not usable. */
  lemma WholeChunkLost()
    ensures var m := [Region(0x20_0000, 0x20_0000, 1)];
      Disjoint(m) && InSomeRegion(m, 0x20_0000) && !ChunkUsable(m, 0x20_0000)
  {
    var m := [Region(0x20_0000, 0x20_0000, 1)];
    assert m[0].RangeIn(0x20_0000, 0x20_0000);
    ChunkLostAtRegionEnd(m, 0, 0x20_0000);
  }

  lemma HeadListedIffUsable(m: seq<Region>, r: seq<Region>, start: nat, k: nat)
    requires forall x: nat {:trigger ChunkUsable(m, x)} {:trigger ChunkUsable(r, x)} :: ChunkUsable(m, x) <==> ChunkUsable(r, x)
    ensures forall c: nat {:trigger ChunkUsable(m, ChunkAddress(start, c))} :: c < k ==>
              (PageIndex(ChunkAddress(start, c)) in UsableHeads(r, start, k) <==> ChunkUsable(m, ChunkAddress(start, c)))
  {
    UsableHeadsMembers(r, start, k);
  }

  /** Chunk `c` from `start` on is on the free list of the largest order when it is usable, marked free
      or else reserved: a block of 2 MB in either case. */
  ghost predicate ChunkBuilt(m: seq<Region>, start: nat, s: State, c: nat) {
    var page := (start + 0x20_0000 * c) / 0x1000;
    var usable := ChunkUsable(m, start + 0x20_0000 * c);
    && page < |s.pd| && |s.lists| == 10
    && (page in s.lists[9] <==> usable)
    && s.pd[page] == Desc(if usable then Free else Reserved, 9)
  }

  lemma WalkedIsBuilt(m: seq<Region>, r: seq<Region>, start: nat, k: nat, s: State, c: nat)
    requires Walked(r, start, k, s) && c < k
    requires forall x: nat {:trigger ChunkUsable(m, x)} {:trigger ChunkUsable(r, x)} :: ChunkUsable(m, x) <==> ChunkUsable(r, x)
    ensures ChunkBuilt(m, start, s, c)
  {
    HeadListedIffUsable(m, r, start, k);
    assert ChunkMarked(r, start, s.pd, c);
    assert ChunkUsable(m, ChunkAddress(start, c)) <==> ChunkUsable(r, ChunkAddress(start, c));
  }

  /** The memory part of boot, on any map whose regions do not overlap: a visited 2 MB block is free
      afterwards exactly when one usable region holds it and the byte after it. */
  method Init(a: Allocator, start: nat, entries: array<Region>) returns (r: Building)
    requires start % 0x20_0000 == 0 && Empty(a) && Disjoint(entries[..])
    modifies a, a.pd, a.freelist, a.count, entries
    ensures r.NoRegion? <==> !InSomeRegion(old(entries[..]), start)
    ensures r.PastDescriptors? <==> InSomeRegion(old(entries[..]), start) && !DescriptorsReach(old(entries[..]), start, a.pd.Length)
    ensures r.Built? ==> var k := r.chunks; var m := old(entries[..]);
      && 1 <= k && Valid(a.Model())
      && a.lo == start / 0x1000 && a.hi == (start + 0x20_0000 * k) / 0x1000
      && (forall c :: 0 <= c < k ==> InSomeRegion(m, start + 0x20_0000 * c))
      && !InSomeRegion(m, start + 0x20_0000 * k)
      && (forall c: nat :: c < k ==> ChunkBuilt(m, start, a.Model(), c))
      && (forall o :: 0 <= o < 9 ==> a.freelist[o] == []) && LeavesAlone(old(a.pd[..]), a.pd[..], start, k)
  {
    ghost var m := entries[..];
    InsertionSort(entries);
    ghost var sorted := entries[..];
    SortingKeepsMap(m, sorted);
    SortingKeepsReach(m, sorted, start, a.pd.Length);
    r := MakeBuddy(a, start, entries);
    if r.Built? {
      forall c: nat | c < r.chunks
        ensures ChunkBuilt(m, start, a.Model(), c)
      {
        WalkedIsBuilt(m, sorted, start, r.chunks, a.Model(), c);
      }
      forall c | 0 <= c < r.chunks
        ensures InSomeRegion(m, start + 0x20_0000 * c)
      {
        assert InSomeRegion(sorted, ChunkAddress(start, c));
      }
    }
  }
}
