/** The kernel's page tables and the processor's walk through them (Intel SDM Vol. 3A, section 4.5,
    4-level paging), for data accesses. Entries are the bit fields of the source; the walk sees only
    the raw 64-bit words they make up. */
module PageTable {
  import opened Bits
  import opened Ilog2
  import opened Wrappers

  // ---- entries ----

  function Bit(b: bool): nat {
    if b then 1 else 0
  }

  /** An entry that refers to a lower table: PML4 and page-directory-pointer entries. */
  datatype Pointer = Pointer(
    present: bool, rw: bool, us: bool, pwt: bool, pcd: bool, accessed: bool,
    reserved1: nat, avail1: nat, base: nat, reserved2: nat, avail2: nat, exb: bool)
  {
    /** Every field fits its width. */
    predicate InWidth() {
      reserved1 < 8 && avail1 < 8 && base < 0x1000_0000 && reserved2 < 0x1000 && avail2 < 0x800
    }

    function Low(): nat {
      Bit(present) + 2 * Bit(rw) + 4 * Bit(us) + 8 * Bit(pwt) + 16 * Bit(pcd) + 32 * Bit(accessed)
      + 64 * reserved1 + 512 * avail1
    }

    function Raw(): nat {
      Low() + 0x1000 * (base + 0x1000_0000 * (reserved2 + 0x1000 * (avail2 + 0x800 * Bit(exb))))
    }

    /** The table address keeps bits 12 to 39 only. */
    function PointTo(address: nat): Pointer {
      this.(base := address / 0x1000 % 0x1000_0000)
    }
  }

  /** A page-directory entry that maps a 2 MB page. */
  datatype LargePage = LargePage(
    present: bool, rw: bool, us: bool, pwt: bool, pcd: bool, accessed: bool, dirty: bool, ps: bool, global: bool,
    avail: nat, pat: bool, reserved1: nat, base: nat, reserved2: nat, avail2: nat, exb: bool)
  {
    predicate InWidth() {
      avail < 8 && reserved1 < 0x100 && base < 0x8_0000 && reserved2 < 0x1000 && avail2 < 0x800
    }

    function Flags(): nat {
      Bit(present) + 2 * Bit(rw) + 4 * Bit(us) + 8 * Bit(pwt) + 16 * Bit(pcd) + 32 * Bit(accessed)
      + 64 * Bit(dirty) + 128 * Bit(ps) + 256 * Bit(global) + 512 * avail + 4096 * Bit(pat)
    }

    function Raw(): nat {
      Flags() + 0x2000 * (reserved1 + 0x100 * (base + 0x8_0000 * (reserved2 + 0x1000 * (avail2 + 0x800 * Bit(exb)))))
    }

    /** The page address keeps bits 21 to 39 only. */
    function PointTo(address: nat): LargePage {
      this.(base := address / 0x20_0000 % 0x8_0000)
    }
  }

  // ---- the walk ----

  predicate PresentBit(raw: nat) {
    raw % 2 == 1
  }

  predicate PageSizeBit(raw: nat) {
    raw / 0x80 % 2 == 1
  }

  predicate ExecuteDisableBit(raw: nat) {
    raw / 0x8000_0000_0000_0000 % 2 == 1
  }

  /** Bits 51 to 12. */
  function FrameOf(raw: nat): nat {
    raw / 0x1000 % 0x100_0000_0000
  }

  /** What the processor's checks depend on: how many physical address bits it has, whether
      IA32_EFER.NXE is set (the kernel leaves it clear, bootsect/stage2.s:664-667), and whether it has
      1 GB pages. */
  datatype Cpu = Cpu(width: nat, nxe: bool, page1g: bool)

  type PagingCpu = c: Cpu | 32 <= c.width <= 52 witness Cpu(36, false, false)

  /** Present, no bit at or above the physical address width set up to bit 51, and bit 63 only
      where it is not reserved. */
  predicate Usable(raw: nat, cpu: PagingCpu) {
    PresentBit(raw) && FrameOf(raw) < Pow2(cpu.width - 12) && (cpu.nxe || !ExecuteDisableBit(raw))
  }

  function EntryAddress(table: nat, index: nat): nat {
    table * 0x1000 + 8 * index
  }

  /** Where a linear address leads from the page-directory entry on. */
  ghost function WalkDirectory(mem: nat -> nat, cpu: PagingCpu, directory: nat, linear: nat): Option<nat> {
    var pde := mem(EntryAddress(directory, linear / 0x20_0000 % 512));
    if !Usable(pde, cpu) then None
    else if PageSizeBit(pde) then
      // bits 20 to 13 of a 2 MB entry are reserved
      if pde / 0x2000 % 0x100 != 0 then None
      else Some(pde / 0x20_0000 % 0x8000_0000 * 0x20_0000 + linear % 0x20_0000)
    else
      var pte := mem(EntryAddress(FrameOf(pde), linear / 0x1000 % 512));
      if !Usable(pte, cpu) then None else Some(FrameOf(pte) * 0x1000 + linear % 0x1000)
  }

  ghost function WalkPointer(mem: nat -> nat, cpu: PagingCpu, table: nat, linear: nat): Option<nat> {
    var pdpte := mem(EntryAddress(table, linear / 0x4000_0000 % 512));
    if !Usable(pdpte, cpu) then None
    else if PageSizeBit(pdpte) then
      // a 1 GB page, of which bits 29 to 13 are reserved, or without such pages a reserved bit
      if !cpu.page1g || pdpte / 0x2000 % 0x2_0000 != 0 then None
      else Some(pdpte / 0x4000_0000 % 0x40_0000 * 0x4000_0000 + linear % 0x4000_0000)
    else WalkDirectory(mem, cpu, FrameOf(pdpte), linear)
  }

  /** The 4-level walk from CR3; None is a page fault. Bit 7 of a PML4 entry is reserved. */
  ghost function Walk(mem: nat -> nat, cpu: PagingCpu, cr3: nat, linear: nat): Option<nat> {
    var pml4e := mem(EntryAddress(FrameOf(cr3), linear / 0x80_0000_0000 % 512));
    if !Usable(pml4e, cpu) || PageSizeBit(pml4e) then None
    else WalkPointer(mem, cpu, FrameOf(pml4e), linear)
  }

  // ---- what the raw words say ----

  lemma Parity(a: nat, u: nat)
    ensures (a + 2 * u) % 2 == a % 2
  {
  }

  lemma Divide80(q: nat, r: nat)
    requires r < 0x80
    ensures (0x80 * q + r) / 0x80 == q
  {
  }

  /** Adding a multiple of 256 leaves bits 0 and 7 alone. */
  lemma LowBitsKept(low: nat, u: nat, raw: nat)
    requires raw == low + 0x100 * u
    ensures raw % 2 == low % 2 && raw / 0x80 % 2 == low / 0x80 % 2
  {
    var a, r := low / 0x80, low % 0x80;
    assert raw == 0x80 * (a + 2 * u) + r;
    Divide80(a + 2 * u, r);
    Parity(a, u);
    Parity(low, 0x80 * u);
  }

  lemma Divide4K(q: nat, r: nat)
    requires r < 0x1000
    ensures (0x1000 * q + r) / 0x1000 == q
  {
  }

  lemma Divide8K(q: nat, r: nat)
    requires r < 0x2000
    ensures (0x2000 * q + r) / 0x2000 == q
  {
  }

  lemma Divide2M(q: nat, r: nat)
    requires r < 0x20_0000
    ensures (0x20_0000 * q + r) / 0x20_0000 == q
  {
  }

  lemma Modulo256(q: nat, r: nat)
    requires r < 0x100
    ensures (0x100 * q + r) % 0x100 == r
  {
  }

  lemma PointerLow(e: Pointer)
    requires e.InWidth()
    ensures e.Low() < 0x1000 && e.Low() % 2 == Bit(e.present) && e.Low() / 0x80 % 2 == e.reserved1 / 2 % 2
  {
    PointerFields(Bit(e.present), Bit(e.rw), Bit(e.us), Bit(e.pwt), Bit(e.pcd), Bit(e.accessed), e.reserved1, e.avail1, e.Low());
  }

  lemma PointerFields(p: nat, rw: nat, us: nat, pwt: nat, pcd: nat, a: nat, r: nat, avail: nat, v: nat)
    requires p < 2 && rw < 2 && us < 2 && pwt < 2 && pcd < 2 && a < 2 && r < 8 && avail < 8
    requires v == p + 2 * rw + 4 * us + 8 * pwt + 16 * pcd + 32 * a + 64 * r + 512 * avail
    ensures v < 0x1000 && v % 2 == p && v / 0x80 % 2 == r / 2 % 2
  {
    var low := rw + 2 * us + 4 * pwt + 8 * pcd + 16 * a + 32 * (r % 2);
    FlagBits(p, low, r / 2 % 2, r / 4 + 2 * avail, v);
  }

  lemma LargePageLow(e: LargePage)
    requires e.InWidth()
    ensures e.Flags() < 0x2000 && e.Flags() % 2 == Bit(e.present) && e.Flags() / 0x80 % 2 == Bit(e.ps)
    ensures 0 <= e.Flags() - 0x1000 * Bit(e.pat) < 0x1000
  {
    PageFields(Bit(e.present), Bit(e.rw), Bit(e.us), Bit(e.pwt), Bit(e.pcd), Bit(e.accessed), Bit(e.dirty), Bit(e.ps),
               Bit(e.global), e.avail, Bit(e.pat), e.Flags());
  }

  lemma PageFields(p: nat, rw: nat, us: nat, pwt: nat, pcd: nat, a: nat, d: nat, ps: nat, g: nat, avail: nat, pat: nat, v: nat)
    requires p < 2 && rw < 2 && us < 2 && pwt < 2 && pcd < 2 && a < 2 && d < 2 && ps < 2 && g < 2 && avail < 8 && pat < 2
    requires v == p + 2 * rw + 4 * us + 8 * pwt + 16 * pcd + 32 * a + 64 * d + 128 * ps + 256 * g + 512 * avail + 4096 * pat
    ensures v < 0x2000 && v % 2 == p && v / 0x80 % 2 == ps && 0 <= v - 0x1000 * pat < 0x1000
  {
    var low := rw + 2 * us + 4 * pwt + 8 * pcd + 16 * a + 32 * d;
    FlagBits(p, low, ps, g + 2 * avail + 16 * pat, v);
  }

  lemma FlagBits(p: nat, high: nat, s: nat, x: nat, v: nat)
    requires p < 2 && high < 64 && s < 2 && v == p + 2 * high + 0x80 * s + 0x100 * x
    ensures v % 2 == p && v / 0x80 % 2 == s
  {
    Parity(p, high + 64 * s + 0x80 * x);
    Divide80(s + 2 * x, p + 2 * high);
    Parity(s, x);
  }

  lemma Mod40(base: nat, reserved: nat, rest: nat)
    requires base < 0x1000_0000 && reserved < 0x1000
    ensures (base + 0x1000_0000 * (reserved + 0x1000 * rest)) % 0x100_0000_0000 == base + 0x1000_0000 * reserved
  {
    Modulo40(rest, base + 0x1000_0000 * reserved);
  }

  lemma Mod31(base: nat, reserved: nat, rest: nat)
    requires base < 0x8_0000 && reserved < 0x1000
    ensures (base + 0x8_0000 * (reserved + 0x1000 * rest)) % 0x8000_0000 == base + 0x8_0000 * reserved
  {
    Modulo31(rest, base + 0x8_0000 * reserved);
  }

  lemma Modulo31(q: nat, r: nat)
    requires r < 0x8000_0000
    ensures (r + 0x8000_0000 * q) % 0x8000_0000 == r
  {
  }

  lemma PointerBits(e: Pointer)
    requires e.InWidth()
    ensures PresentBit(e.Raw()) <==> e.present
    ensures PageSizeBit(e.Raw()) <==> e.reserved1 / 2 % 2 == 1
    ensures FrameOf(e.Raw()) == e.base + 0x1000_0000 * e.reserved2
    ensures ExecuteDisableBit(e.Raw()) <==> e.exb
  {
    PointerLow(e);
    PointerFrame(e);
    LowBitsKept(e.Low(), 0x10 * (e.base + 0x1000_0000 * (e.reserved2 + 0x1000 * (e.avail2 + 0x800 * Bit(e.exb)))), e.Raw());
    Bit63(e.Low() + 0x1000 * (e.base + 0x1000_0000 * (e.reserved2 + 0x1000 * e.avail2)), e.exb);
  }

  lemma PointerFrame(e: Pointer)
    requires e.InWidth() && e.Low() < 0x1000
    ensures FrameOf(e.Raw()) == e.base + 0x1000_0000 * e.reserved2
  {
    var rest := e.avail2 + 0x800 * Bit(e.exb);
    Divide4K(e.base + 0x1000_0000 * (e.reserved2 + 0x1000 * rest), e.Low());
    Mod40(e.base, e.reserved2, rest);
  }

  /** A directory pointer read as a 1 GB page: its reserved bits and its page number. */
  lemma GigabyteBits(e: Pointer)
    requires e.InWidth()
    ensures e.Raw() / 0x2000 % 0x2_0000 == e.base / 2 % 0x2_0000
    ensures e.Raw() / 0x4000_0000 % 0x40_0000 == e.base / 0x4_0000 + 0x400 * e.reserved2
  {
    var rest := e.avail2 + 0x800 * Bit(e.exb);
    var half, page := e.base / 2, e.base / 0x4_0000;
    var mid := half % 0x2_0000;
    var top := page + 0x400 * (e.reserved2 + 0x1000 * rest);
    PointerLow(e);
    assert half == mid + 0x2_0000 * page;
    assert e.base == e.base % 2 + 2 * half;
    Divide8K(mid + 0x2_0000 * top, e.Low() + 0x1000 * (e.base % 2));
    Modulo17(top, mid);
    Divide1G(top, e.Low() + 0x1000 * (e.base % 2) + 0x2000 * mid);
    Modulo22(rest, page + 0x400 * e.reserved2);
  }

  lemma Modulo17(q: nat, r: nat)
    requires r < 0x2_0000
    ensures (r + 0x2_0000 * q) % 0x2_0000 == r
  {
  }

  lemma Modulo22(q: nat, r: nat)
    requires r < 0x40_0000
    ensures (r + 0x40_0000 * q) % 0x40_0000 == r
  {
  }

  lemma Divide1G(q: nat, r: nat)
    requires r < 0x4000_0000
    ensures (0x4000_0000 * q + r) / 0x4000_0000 == q
  {
  }

  lemma Bit63(low: nat, b: bool)
    requires low < 0x8000_0000_0000_0000
    ensures ExecuteDisableBit(low + 0x8000_0000_0000_0000 * Bit(b)) <==> b
  {
  }

  lemma LargePageBits(e: LargePage)
    requires e.InWidth()
    ensures PresentBit(e.Raw()) <==> e.present
    ensures PageSizeBit(e.Raw()) <==> e.ps
    ensures e.Raw() / 0x2000 % 0x100 == e.reserved1
    ensures e.Raw() / 0x20_0000 % 0x8000_0000 == e.base + 0x8_0000 * e.reserved2
    ensures ExecuteDisableBit(e.Raw()) <==> e.exb
  {
    var rest := e.avail2 + 0x800 * Bit(e.exb);
    var top := e.base + 0x8_0000 * (e.reserved2 + 0x1000 * rest);
    var upper := e.reserved1 + 0x100 * top;
    LargePageLow(e);
    LowBitsKept(e.Flags(), 0x20 * upper, e.Raw());
    Divide8K(upper, e.Flags());
    Modulo256(top, e.reserved1);
    Divide2M(top, e.Flags() + 0x2000 * e.reserved1);
    Mod31(e.base, e.reserved2, rest);
    Bit63(e.Flags() + 0x2000 * (e.reserved1 + 0x100 * (e.base + 0x8_0000 * (e.reserved2 + 0x1000 * e.avail2))), e.exb);
  }

  /** The 4 KB frame number of a 2 MB entry, its reserved fields and its PAT bit included. */
  lemma LargePageFrame(e: LargePage)
    requires e.InWidth()
    ensures FrameOf(e.Raw()) == Bit(e.pat) + 2 * e.reserved1 + 0x200 * (e.base + 0x8_0000 * e.reserved2)
  {
    var rest := e.avail2 + 0x800 * Bit(e.exb);
    var v := Bit(e.pat) + 2 * e.reserved1 + 0x200 * (e.base + 0x8_0000 * e.reserved2);
    LargePageLow(e);
    Divide4K(v + 0x100_0000_0000 * rest, e.Flags() - 0x1000 * Bit(e.pat));
    Modulo40(rest, v);
  }

  lemma Modulo40(q: nat, r: nat)
    requires r < 0x100_0000_0000
    ensures (r + 0x100_0000_0000 * q) % 0x100_0000_0000 == r
  {
  }

  // ---- building the tables ----

  /** The kernel's address of a physical one: bits 47 to 63 are set. */
  function ToKer(phys: nat): nat
    requires phys < 0x8000_0000_0000
  {
    0xffff_8000_0000_0000 + phys
  }

  /** How many 2 MB entries the loop fills for memory ending at `end`. */
  function Entries(end: nat): nat {
    (end + 0x1f_ffff) / 0x20_0000
  }

  function PtePages(end: nat): nat {
    end / 0x20_0000 / 512 + 1
  }

  /** The contents of the pages the tables are built in. */
  datatype Tables = Tables(pml4: seq<Pointer>, pdpt: seq<Pointer>, pd: seq<LargePage>)
  {
    ghost predicate InWidth() {
      && (forall i :: 0 <= i < |pml4| ==> pml4[i].InWidth())
      && (forall i :: 0 <= i < |pdpt| ==> pdpt[i].InWidth())
      && (forall i :: 0 <= i < |pd| ==> pd[i].InWidth())
    }
  }

  /** Page-aligned tables at addresses the 28-bit fields can hold. */
  predicate TablesAt(pml4Phys: nat, pdptPhys: nat, pdPhys: nat) {
    && pml4Phys % 0x1000 == 0 && pml4Phys < 0x100_0000_0000
    && pdptPhys % 0x1000 == 0 && pdptPhys < 0x100_0000_0000
    && pdPhys % 0x1000 == 0 && pdPhys + 0x1000 * 512 < 0x100_0000_0000
  }

  /** An entry that held `e` once it refers to page `k` of memory, every other field as it was. */
  function MappedPage(e: LargePage, k: nat): LargePage {
    e.(base := k, present := true, rw := true, ps := true)
  }

  function MappedTable(e: Pointer, frame: nat): Pointer {
    e.(base := frame, present := true, rw := true)
  }

  function Directory(pd: seq<LargePage>, n: nat): (r: seq<LargePage>)
    ensures |r| == |pd|
  {
    seq(|pd|, k requires 0 <= k < |pd| => if k < n then MappedPage(pd[k], k) else pd[k])
  }

  function Pointers(pdpt: seq<Pointer>, frame: nat, n: nat): (r: seq<Pointer>)
    ensures |r| == |pdpt|
  {
    seq(|pdpt|, i requires 0 <= i < |pdpt| => if i < n then MappedTable(pdpt[i], frame + i) else pdpt[i])
  }

  /** The tables for memory ending at `end`, built in pages that held `was`. */
  function Build(end: nat, pdPhys: nat, pdptPhys: nat, was: Tables): Tables
    requires |was.pml4| == 512
  {
    Tables(was.pml4[256 := MappedTable(was.pml4[256], pdptPhys / 0x1000)],
           Pointers(was.pdpt, pdPhys / 0x1000, PtePages(end)),
           Directory(was.pd, Entries(end)))
  }

  lemma TruncatedAddress(phys: nat, i: nat)
    requires phys % 0x1000 == 0 && phys + 0x1000 * i < 0x100_0000_0000
    ensures (ToKer(phys) + i * 0x1000) / 0x1000 % 0x1000_0000 == phys / 0x1000 + i
  {
    var q := phys / 0x1000 + i;
    assert ToKer(phys) + i * 0x1000 == 0x1000 * (0xf_fff8_0000_0000 + q);
    assert 0xf_fff8_0000_0000 == 0x1000_0000 * 0xff_ff80;
  }

  /** Overrun: the loop is about to write an entry outside the pages its directory was given. */
  datatype Outcome = Done | TooMuchMemory | Overrun

  /** Fills the tables; the kernel panics when memory needs more than one directory-pointer page.
      The three tables are the pages allocated for them, addressed by kernel pointers. */
  method MakeKernelPte(end: nat, pdPhys: nat, pdptPhys: nat,
                       pd: array<LargePage>, pdpt: array<Pointer>, pml4: array<Pointer>) returns (r: Outcome)
    requires pdpt.Length == 512 == pml4.Length && pdpt != pml4
    requires TablesAt(0, pdptPhys, pdPhys)
    modifies pd, pdpt, pml4
    ensures r == TooMuchMemory <==> end >= 0x80_0000_0000
    ensures r == Overrun <==> end < 0x80_0000_0000 && end > 0x20_0000 * pd.Length
    ensures r == Done ==> Tables(pml4[..], pdpt[..], pd[..]) == Build(end, pdPhys, pdptPhys, old(Tables(pml4[..], pdpt[..], pd[..])))
    ensures r == TooMuchMemory ==> unchanged(pd, pdpt, pml4)
    ensures r == Overrun ==> unchanged(pdpt, pml4) && pd[..] == Directory(old(pd[..]), Entries(end))
  {
    var pteCount := PtePages(end);
    var pudCount := (pteCount - 1) / 512 + 1;
    if pteCount > 512 {
      return TooMuchMemory;
    }
    var fits := FillDirectory(end, pd);
    if !fits {
      return Overrun;
    }
    FillPointers(pdPhys, pdpt, pteCount);
    TruncatedAddress(pdptPhys, 0);
    assert pudCount == 1;
    pml4[256] := pml4[256].PointTo(ToKer(pdptPhys)).(present := true, rw := true);
    return Done;
  }

  /** One directory pointer for every page of 2 MB entries. */
  method FillPointers(pdPhys: nat, pdpt: array<Pointer>, n: nat)
    requires n <= 512 == pdpt.Length && TablesAt(0, 0, pdPhys)
    modifies pdpt
    ensures pdpt[..] == Pointers(old(pdpt[..]), pdPhys / 0x1000, n)
  {
    for i := 0 to n
      invariant forall k :: 0 <= k < i ==> pdpt[k] == MappedTable(old(pdpt[k]), pdPhys / 0x1000 + k)
      invariant forall k :: i <= k < 512 ==> pdpt[k] == old(pdpt[k])
    {
      TruncatedAddress(pdPhys, i);
      pdpt[i] := pdpt[i].PointTo(ToKer(pdPhys) + i * 0x1000).(present := true, rw := true);
    }
  }

  /** One 2 MB entry for every 2 MB of memory, from address zero. */
  method FillDirectory(end: nat, pd: array<LargePage>) returns (fits: bool)
    requires PtePages(end) <= 512
    modifies pd
    ensures fits <==> Entries(end) <= pd.Length
    ensures pd[..] == Directory(old(pd[..]), Entries(end))
  {
    var address, entry := 0, 0;
    while address < end && entry < pd.Length
      invariant address == 0x20_0000 * entry && entry <= Entries(end) && entry <= pd.Length
      invariant forall k :: 0 <= k < entry ==> pd[k] == MappedPage(old(pd[k]), k)
      invariant forall k :: entry <= k < pd.Length ==> pd[k] == old(pd[k])
      decreases end - address
    {
      pd[entry] := pd[entry].PointTo(address).(present := true, rw := true, ps := true);
      address, entry := address + 0x20_0000, entry + 1;
    }
    fits := address >= end;
  }

  // ---- the mapping ----

  /** Memory holds the tables' entries as 64-bit words at their physical addresses. */
  ghost predicate Holds(mem: nat -> nat, pml4Phys: nat, pdptPhys: nat, pdPhys: nat, t: Tables) {
    && (forall i {:trigger t.pml4[i]} :: 0 <= i < |t.pml4| ==> mem(pml4Phys + 8 * i) == t.pml4[i].Raw())
    && (forall i {:trigger t.pdpt[i]} :: 0 <= i < |t.pdpt| ==> mem(pdptPhys + 8 * i) == t.pdpt[i].Raw())
    && (forall i {:trigger t.pd[i]} :: 0 <= i < |t.pd| ==> mem(pdPhys + 8 * i) == t.pd[i].Raw())
  }

  predicate StalePageSize(e: Pointer) {
    e.reserved1 / 2 % 2 == 1
  }

  /** What building leaves alone and the processor requires: bit 7 (in a PML4 entry it is reserved,
      in a directory pointer it makes a 1 GB page or is reserved too) and the high address bits zero,
      and bit 63 zero where it is reserved. */
  predicate CleanPointer(e: Pointer, nxe: bool) {
    !StalePageSize(e) && e.reserved2 == 0 && (nxe || !e.exb)
  }

  predicate CleanPage(e: LargePage, nxe: bool) {
    e.reserved1 == 0 && e.reserved2 == 0 && (nxe || !e.exb)
  }

  /** The entry refers to a table below 2^40 or is refused: its stale high address bits do not turn it
      into a reference to some other memory. */
  predicate StaysHome(e: Pointer, width: nat)
    requires width >= 12
  {
    e.reserved2 == 0 || e.base + 0x1000_0000 * e.reserved2 >= Pow2(width - 12)
  }

  /** A stale bit 7 makes the pointer a 1 GB page where there are such pages, and by chance it may be
      the right one. */
  predicate IsGigabyte(e: Pointer, i: nat, cpu: Cpu) {
    cpu.page1g && e.base / 2 % 0x2_0000 == 0 && e.base / 0x4_0000 == i && e.reserved2 == 0 && (cpu.nxe || !e.exb)
  }

  /** What a directory pointer must be to lead to a place in gigabyte `i`, given whether the directory
      it names leads there. */
  predicate PointerLeads(e: Pointer, i: nat, cpu: Cpu, below: bool) {
    if StalePageSize(e) then IsGigabyte(e, i, cpu) else CleanPointer(e, cpu.nxe) && below
  }

  /** Memory and tables lie in the physical address space of the processor. */
  predicate InReach(cpu: PagingCpu, end: nat, pdptPhys: nat, pdPhys: nat) {
    && pdptPhys < Pow2(cpu.width) && pdPhys + 0x1000 * PtePages(end) <= Pow2(cpu.width)
    && end <= Pow2(cpu.width)
  }

  // where the parts of a kernel address point

  lemma RootPart(p: nat)
    requires p < 0x80_0000_0000
    ensures ToKer(p) / 0x80_0000_0000 % 512 == 256
  {
    assert 0xffff_8000_0000_0000 == 0x80_0000_0000 * 0x1ff_ff00;
    assert ToKer(p) / 0x80_0000_0000 == 0x1ff_ff00;
  }

  lemma PointerPart(p: nat)
    requires p < 0x80_0000_0000
    ensures ToKer(p) / 0x4000_0000 % 512 == p / 0x4000_0000 && ToKer(p) % 0x4000_0000 == p % 0x4000_0000
  {
    assert 0xffff_8000_0000_0000 == 0x4000_0000 * 0x3_fffe_0000;
    assert ToKer(p) / 0x4000_0000 == 0x3_fffe_0000 + p / 0x4000_0000;
  }

  lemma PagePart(p: nat)
    requires p < 0x80_0000_0000
    ensures ToKer(p) / 0x20_0000 % 512 == p / 0x20_0000 % 512 && ToKer(p) % 0x20_0000 == p % 0x20_0000
  {
    assert 0xffff_8000_0000_0000 == 0x20_0000 * 0x7ff_fc00_0000;
    assert ToKer(p) / 0x20_0000 == 0x7ff_fc00_0000 + p / 0x20_0000;
  }

  /** The frame of an address in reach. */
  lemma FrameInReach(phys: nat, width: nat)
    requires width >= 12 && phys < Pow2(width)
    ensures phys / 0x1000 < Pow2(width - 12)
  {
    PageTimes(width - 12);
  }

  /** A 2 MB page that starts in reach ends there, its PAT bit no obstacle. */
  lemma PageInReach(k: nat, width: nat)
    requires width >= 32 && 0x20_0000 * k < Pow2(width)
    ensures 0x200 * k + 1 < Pow2(width - 12)
  {
    var half := Pow2(width - 13);
    PageTimes(width - 12);
    assert Pow2(width - 12) == 2 * half;
    HalfBound(k, half);
  }

  lemma HalfBound(k: nat, half: nat)
    requires 0x20_0000 * k < 0x2000 * half
    ensures 0x200 * k + 1 < 2 * half
  {
  }

  /** When the processor accepts a pointer as a reference to a table or page. */
  lemma PointerUsable(e: Pointer, cpu: PagingCpu)
    requires e.InWidth() && e.present && e.base < Pow2(cpu.width - 12) && StaysHome(e, cpu.width)
    ensures Usable(e.Raw(), cpu) <==> e.reserved2 == 0 && (cpu.nxe || !e.exb)
  {
    PointerBits(e);
  }

  lemma ThroughRoot(mem: nat -> nat, cpu: PagingCpu, cr3: nat, la: nat, e: Pointer)
    requires e.InWidth() && e.present && e.base < Pow2(cpu.width - 12) && StaysHome(e, cpu.width)
    requires mem(EntryAddress(FrameOf(cr3), la / 0x80_0000_0000 % 512)) == e.Raw()
    ensures Walk(mem, cpu, cr3, la) == if CleanPointer(e, cpu.nxe) then WalkPointer(mem, cpu, e.base, la) else None
  {
    PointerUsable(e, cpu);
    PointerBits(e);
  }

  lemma WalkThroughPointer(mem: nat -> nat, cpu: PagingCpu, table: nat, la: nat, e: Pointer)
    requires e.InWidth() && mem(EntryAddress(table, la / 0x4000_0000 % 512)) == e.Raw()
    ensures WalkPointer(mem, cpu, table, la) ==
      if !Usable(e.Raw(), cpu) then None
      else if !StalePageSize(e) then WalkDirectory(mem, cpu, e.base + 0x1000_0000 * e.reserved2, la)
      else if !cpu.page1g || e.base / 2 % 0x2_0000 != 0 then None
      else Some((e.base / 0x4_0000 + 0x400 * e.reserved2) * 0x4000_0000 + la % 0x4000_0000)
  {
    PointerBits(e);
    GigabyteBits(e);
  }

  lemma ThroughPointer(mem: nat -> nat, cpu: PagingCpu, table: nat, la: nat, e: Pointer, p: nat, i: nat)
    requires e.InWidth() && e.present && e.base < Pow2(cpu.width - 12) && StaysHome(e, cpu.width)
    requires mem(EntryAddress(table, i)) == e.Raw() && la / 0x4000_0000 % 512 == i == p / 0x4000_0000
    requires la % 0x4000_0000 == p % 0x4000_0000
    ensures WalkPointer(mem, cpu, table, la) == Some(p) <==>
      PointerLeads(e, i, cpu, WalkDirectory(mem, cpu, e.base, la) == Some(p))
  {
    PointerUsable(e, cpu);
    WalkThroughPointer(mem, cpu, table, la, e);
    SameGigabyte(e.base / 0x4_0000, p);
  }

  // two places with the same offset are the same exactly when they are in the same page

  lemma SameGigabyte(page: nat, p: nat)
    ensures page * 0x4000_0000 + p % 0x4000_0000 == p <==> page == p / 0x4000_0000
  {
  }

  lemma SamePage(page: nat, p: nat)
    ensures page * 0x20_0000 + p % 0x20_0000 == p <==> page == p / 0x20_0000
  {
  }

  lemma PageUsable(e: LargePage, cpu: PagingCpu)
    requires e.InWidth() && e.present && 0x200 * e.base + 1 < Pow2(cpu.width - 12)
    ensures CleanPage(e, cpu.nxe) ==> Usable(e.Raw(), cpu)
    ensures Usable(e.Raw(), cpu) ==> cpu.nxe || !e.exb
  {
    LargePageBits(e);
    LargePageFrame(e);
  }

  lemma WalkThroughPage(mem: nat -> nat, cpu: PagingCpu, directory: nat, la: nat, e: LargePage)
    requires e.InWidth() && e.ps && mem(EntryAddress(directory, la / 0x20_0000 % 512)) == e.Raw()
    ensures WalkDirectory(mem, cpu, directory, la) ==
      if !Usable(e.Raw(), cpu) || e.reserved1 != 0 then None
      else Some((e.base + 0x8_0000 * e.reserved2) * 0x20_0000 + la % 0x20_0000)
  {
    LargePageBits(e);
  }

  /** The 2 MB entry for page `k` leads to `p` in that page exactly when its untouched fields are clean. */
  lemma ThroughPage(mem: nat -> nat, cpu: PagingCpu, directory: nat, la: nat, e: LargePage, p: nat)
    requires e.InWidth() && e.present && e.ps && e.base == p / 0x20_0000 && 0x200 * e.base + 1 < Pow2(cpu.width - 12)
    requires mem(EntryAddress(directory, la / 0x20_0000 % 512)) == e.Raw() && la % 0x20_0000 == p % 0x20_0000
    ensures WalkDirectory(mem, cpu, directory, la) == Some(p) <==> CleanPage(e, cpu.nxe)
  {
    PageUsable(e, cpu);
    WalkThroughPage(mem, cpu, directory, la, e);
    SamePage(e.base + 0x8_0000 * e.reserved2, p);
  }

  /** Memory holds the tables built in pages that held `was`. */
  ghost predicate Loaded(mem: nat -> nat, end: nat, pml4Phys: nat, pdptPhys: nat, pdPhys: nat, was: Tables) {
    && TablesAt(pml4Phys, pdptPhys, pdPhys)
    && |was.pml4| == 512 == |was.pdpt| && Entries(end) <= |was.pd| && PtePages(end) <= 512 && was.InWidth()
    && Holds(mem, pml4Phys, pdptPhys, pdPhys, Build(end, pdPhys, pdptPhys, was))
  }

  // the three words the walk reads

  lemma AddressOfEntry(phys: nat, k: nat)
    requires phys % 0x1000 == 0
    ensures EntryAddress(phys / 0x1000 + k / 512, k % 512) == phys + 8 * k
  {
  }

  lemma FrameOfAddress(phys: nat)
    requires phys % 0x1000 == 0 && phys < 0x100_0000_0000
    ensures FrameOf(phys) == phys / 0x1000
  {
  }

  lemma RootWord(mem: nat -> nat, end: nat, pml4Phys: nat, pdptPhys: nat, pdPhys: nat, was: Tables)
    requires Loaded(mem, end, pml4Phys, pdptPhys, pdPhys, was)
    ensures var e := MappedTable(was.pml4[256], pdptPhys / 0x1000);
      e.InWidth() && mem(EntryAddress(FrameOf(pml4Phys), 256)) == e.Raw()
  {
    FrameOfAddress(pml4Phys);
    AddressOfEntry(pml4Phys, 256);
    assert Build(end, pdPhys, pdptPhys, was).pml4[256] == MappedTable(was.pml4[256], pdptPhys / 0x1000);
  }

  lemma PointerWord(mem: nat -> nat, end: nat, pml4Phys: nat, pdptPhys: nat, pdPhys: nat, was: Tables, i: nat)
    requires Loaded(mem, end, pml4Phys, pdptPhys, pdPhys, was) && i < PtePages(end)
    ensures var e := MappedTable(was.pdpt[i], pdPhys / 0x1000 + i);
      e.InWidth() && mem(EntryAddress(pdptPhys / 0x1000, i)) == e.Raw()
  {
    assert i < 512;
    AddressOfEntry(pdptPhys, i);
    FrameBound(pdPhys, i);
    var table := Build(end, pdPhys, pdptPhys, was).pdpt;
    assert table == Pointers(was.pdpt, pdPhys / 0x1000, PtePages(end));
    assert table[i] == MappedTable(was.pdpt[i], pdPhys / 0x1000 + i);
    assert mem(pdptPhys + 8 * i) == table[i].Raw();
    assert was.pdpt[i].InWidth();
  }

  lemma FrameBound(phys: nat, i: nat)
    requires i < 512 && phys + 0x1000 * 512 < 0x100_0000_0000
    ensures phys / 0x1000 + i < 0x1000_0000
  {
  }

  lemma PageWord(mem: nat -> nat, end: nat, pml4Phys: nat, pdptPhys: nat, pdPhys: nat, was: Tables, k: nat)
    requires Loaded(mem, end, pml4Phys, pdptPhys, pdPhys, was) && k < Entries(end)
    ensures var e := MappedPage(was.pd[k], k);
      e.InWidth() && mem(EntryAddress(pdPhys / 0x1000 + k / 512, k % 512)) == e.Raw()
  {
    AddressOfEntry(pdPhys, k);
    assert Build(end, pdPhys, pdptPhys, was).pd[k] == MappedPage(was.pd[k], k);
    assert k < 512 * 512 && k < 0x8_0000;
  }

  // the walk of a kernel address through three entries

  lemma KernelRoot(mem: nat -> nat, cpu: PagingCpu, cr3: nat, e: Pointer, p: nat)
    requires e.InWidth() && e.present && e.base < Pow2(cpu.width - 12) && StaysHome(e, cpu.width) && p < 0x80_0000_0000
    requires mem(EntryAddress(FrameOf(cr3), 256)) == e.Raw()
    ensures Walk(mem, cpu, cr3, ToKer(p)) == if CleanPointer(e, cpu.nxe) then WalkPointer(mem, cpu, e.base, ToKer(p)) else None
  {
    RootPart(p);
    ThroughRoot(mem, cpu, cr3, ToKer(p), e);
  }

  lemma KernelPointer(mem: nat -> nat, cpu: PagingCpu, table: nat, e: Pointer, p: nat, i: nat)
    requires e.InWidth() && e.present && e.base < Pow2(cpu.width - 12) && StaysHome(e, cpu.width)
    requires mem(EntryAddress(table, i)) == e.Raw() && i == p / 0x4000_0000 < 512
    ensures WalkPointer(mem, cpu, table, ToKer(p)) == Some(p) <==>
      PointerLeads(e, i, cpu, WalkDirectory(mem, cpu, e.base, ToKer(p)) == Some(p))
  {
    PointerPart(p);
    ThroughPointer(mem, cpu, table, ToKer(p), e, p, i);
  }

  lemma KernelPage(mem: nat -> nat, cpu: PagingCpu, directory: nat, e: LargePage, p: nat, k: nat)
    requires e.InWidth() && e.present && e.ps && e.base == k == p / 0x20_0000 && 0x200 * k + 1 < Pow2(cpu.width - 12)
    requires mem(EntryAddress(directory, k % 512)) == e.Raw() && p < 0x80_0000_0000
    ensures WalkDirectory(mem, cpu, directory, ToKer(p)) == Some(p) <==> CleanPage(e, cpu.nxe)
  {
    PagePart(p);
    ThroughPage(mem, cpu, directory, ToKer(p), e, p);
  }

  /** Three entries that memory holds where the walk looks for them, each in reach of the processor. */
  ghost predicate OnTheWay(mem: nat -> nat, cpu: PagingCpu, cr3: nat, root: Pointer, pointer: Pointer, page: LargePage, i: nat, k: nat) {
    && root.InWidth() && root.present && root.base < Pow2(cpu.width - 12)
    && pointer.InWidth() && pointer.present && pointer.base < Pow2(cpu.width - 12)
    && page.InWidth() && page.present && page.ps && page.base == k && 0x200 * k + 1 < Pow2(cpu.width - 12)
    && mem(EntryAddress(FrameOf(cr3), 256)) == root.Raw() && mem(EntryAddress(root.base, i)) == pointer.Raw()
    && mem(EntryAddress(pointer.base, k % 512)) == page.Raw()
  }

  lemma KernelWalk(mem: nat -> nat, cpu: PagingCpu, cr3: nat, root: Pointer, pointer: Pointer, page: LargePage, p: nat, i: nat, k: nat)
    requires OnTheWay(mem, cpu, cr3, root, pointer, page, i, k) && StaysHome(root, cpu.width) && StaysHome(pointer, cpu.width)
    requires p < 0x80_0000_0000 && i == p / 0x4000_0000 < 512 && k == p / 0x20_0000
    ensures Walk(mem, cpu, cr3, ToKer(p)) == Some(p) <==>
      CleanPointer(root, cpu.nxe) && PointerLeads(pointer, i, cpu, CleanPage(page, cpu.nxe))
  {
    KernelRoot(mem, cpu, cr3, root, p);
    KernelPointer(mem, cpu, root.base, pointer, p, i);
    KernelPage(mem, cpu, pointer.base, page, p, k);
  }

  lemma EntriesOnTheWay(mem: nat -> nat, cpu: PagingCpu, end: nat, pml4Phys: nat, pdptPhys: nat, pdPhys: nat, was: Tables, i: nat, k: nat)
    requires Loaded(mem, end, pml4Phys, pdptPhys, pdPhys, was) && InReach(cpu, end, pdptPhys, pdPhys)
    requires k < Entries(end) && i == k / 512 < PtePages(end) && 0x20_0000 * k < end
    ensures OnTheWay(mem, cpu, pml4Phys, MappedTable(was.pml4[256], pdptPhys / 0x1000),
                     MappedTable(was.pdpt[i], pdPhys / 0x1000 + i), MappedPage(was.pd[k], k), i, k)
  {
    FramesInReach(cpu, end, pdptPhys, pdPhys, i, k);
    RootWord(mem, end, pml4Phys, pdptPhys, pdPhys, was);
    PointerWord(mem, end, pml4Phys, pdptPhys, pdPhys, was, i);
    PageWord(mem, end, pml4Phys, pdptPhys, pdPhys, was, k);
  }

  /** A filled entry's page of entries has a pointer. */
  lemma FilledPage(p: nat, end: nat)
    requires 0x20_0000 * (p / 0x20_0000) < end
    ensures p / 0x20_0000 < Entries(end) && p / 0x4000_0000 == p / 0x20_0000 / 512 < PtePages(end)
  {
  }

  lemma FramesInReach(cpu: PagingCpu, end: nat, pdptPhys: nat, pdPhys: nat, i: nat, k: nat)
    requires InReach(cpu, end, pdptPhys, pdPhys) && pdPhys % 0x1000 == 0 && i < PtePages(end) && 0x20_0000 * k < end
    ensures pdptPhys / 0x1000 < Pow2(cpu.width - 12) && pdPhys / 0x1000 + i < Pow2(cpu.width - 12)
    ensures 0x200 * k + 1 < Pow2(cpu.width - 12)
  {
    FrameInReach(pdptPhys, cpu.width);
    FrameInReach(pdPhys + 0x1000 * i, cpu.width);
    assert (pdPhys + 0x1000 * i) / 0x1000 == pdPhys / 0x1000 + i;
    PageInReach(k, cpu.width);
  }

  lemma FilledPageMapsBack(mem: nat -> nat, cpu: PagingCpu, end: nat, pml4Phys: nat, pdptPhys: nat, pdPhys: nat,
                           was: Tables, p: nat, i: nat, k: nat)
    requires Loaded(mem, end, pml4Phys, pdptPhys, pdPhys, was) && InReach(cpu, end, pdptPhys, pdPhys)
    requires i == p / 0x4000_0000 == k / 512 < PtePages(end) && k == p / 0x20_0000 < Entries(end) && 0x20_0000 * k < end
    requires StaysHome(MappedTable(was.pml4[256], pdptPhys / 0x1000), cpu.width)
    requires StaysHome(MappedTable(was.pdpt[i], pdPhys / 0x1000 + i), cpu.width)
    ensures Walk(mem, cpu, pml4Phys, ToKer(p)) == Some(p) <==>
      && CleanPointer(was.pml4[256], cpu.nxe)
      && PointerLeads(MappedTable(was.pdpt[i], pdPhys / 0x1000 + i), i, cpu, CleanPage(was.pd[k], cpu.nxe))
  {
    EntriesOnTheWay(mem, cpu, end, pml4Phys, pdptPhys, pdPhys, was, i, k);
    KernelWalk(mem, cpu, pml4Phys, MappedTable(was.pml4[256], pdptPhys / 0x1000),
               MappedTable(was.pdpt[i], pdPhys / 0x1000 + i), MappedPage(was.pd[k], k), p, i, k);
  }

  /** Every address of memory, seen through the kernel's half of the address space, leads back to
      itself exactly when the fields that building leaves alone are clean in the three entries on the
      way, or a stale bit 7 makes the right 1 GB page. Pages that held pointers above 2^40 which the
      processor accepts are excluded: those lead to other memory. */
  lemma KernelAddressMapsBack(mem: nat -> nat, cpu: PagingCpu, end: nat, pml4Phys: nat, pdptPhys: nat, pdPhys: nat,
                              was: Tables, p: nat, i: nat, k: nat)
    requires Loaded(mem, end, pml4Phys, pdptPhys, pdPhys, was) && InReach(cpu, end, pdptPhys, pdPhys)
    requires p < end && 0x4000_0000 * i <= p < 0x4000_0000 * (i + 1) && 0x20_0000 * k <= p < 0x20_0000 * (k + 1)
    requires i < 512 ==> StaysHome(MappedTable(was.pdpt[i], pdPhys / 0x1000 + i), cpu.width)
    requires StaysHome(MappedTable(was.pml4[256], pdptPhys / 0x1000), cpu.width)
    ensures i < 512 && k < |was.pd|
    ensures Walk(mem, cpu, pml4Phys, 0xffff_8000_0000_0000 + p) == Some(p) <==>
      && CleanPointer(was.pml4[256], cpu.nxe)
      && PointerLeads(MappedTable(was.pdpt[i], pdPhys / 0x1000 + i), i, cpu, CleanPage(was.pd[k], cpu.nxe))
  {
    Located(p, i, k);
    FilledPage(p, end);
    FilledPageMapsBack(mem, cpu, end, pml4Phys, pdptPhys, pdPhys, was, p, i, k);
  }

  lemma Located(p: nat, i: nat, k: nat)
    requires 0x4000_0000 * i <= p < 0x4000_0000 * (i + 1) && 0x20_0000 * k <= p < 0x20_0000 * (k + 1)
    ensures i == p / 0x4000_0000 && k == p / 0x20_0000 && 0x20_0000 * (p / 0x20_0000) <= p
  {
  }

  // ---- what building writes, and what it leaves alone ----

  predicate WriteBit(raw: nat) {
    raw / 2 % 2 == 1
  }

  lemma SecondBit(p: nat, w: nat, x: nat, v: nat)
    requires p < 2 && w < 2 && v == p + 2 * w + 4 * x
    ensures v / 2 % 2 == w
  {
  }

  lemma PointerWriteBit(e: Pointer)
    requires e.InWidth()
    ensures WriteBit(e.Raw()) <==> e.rw
  {
    PointerSecondBit(Bit(e.present), Bit(e.rw), Bit(e.us), Bit(e.pwt), Bit(e.pcd), Bit(e.accessed), e.reserved1, e.avail1,
      e.base + 0x1000_0000 * (e.reserved2 + 0x1000 * (e.avail2 + 0x800 * Bit(e.exb))), e.Raw());
  }

  lemma PointerSecondBit(p: nat, rw: nat, us: nat, pwt: nat, pcd: nat, a: nat, r: nat, avail: nat, upper: nat, v: nat)
    requires p < 2 && rw < 2
    requires v == p + 2 * rw + 4 * us + 8 * pwt + 16 * pcd + 32 * a + 64 * r + 512 * avail + 0x1000 * upper
    ensures v / 2 % 2 == rw
  {
    SecondBit(p, rw, us + 2 * pwt + 4 * pcd + 8 * a + 16 * r + 128 * avail + 0x400 * upper, v);
  }

  lemma PageWriteBit(e: LargePage)
    requires e.InWidth()
    ensures WriteBit(e.Raw()) <==> e.rw
  {
    PageSecondBit(Bit(e.present), Bit(e.rw), Bit(e.us), Bit(e.pwt), Bit(e.pcd), Bit(e.accessed), Bit(e.dirty), Bit(e.ps),
      Bit(e.global), e.avail, Bit(e.pat),
      e.reserved1 + 0x100 * (e.base + 0x8_0000 * (e.reserved2 + 0x1000 * (e.avail2 + 0x800 * Bit(e.exb)))), e.Raw());
  }

  lemma PageSecondBit(p: nat, rw: nat, us: nat, pwt: nat, pcd: nat, a: nat, d: nat, ps: nat, g: nat, avail: nat, pat: nat,
                      upper: nat, v: nat)
    requires p < 2 && rw < 2
    requires v == p + 2 * rw + 4 * us + 8 * pwt + 16 * pcd + 32 * a + 64 * d + 128 * ps + 256 * g + 512 * avail + 4096 * pat
                  + 0x2000 * upper
    ensures v / 2 % 2 == rw
  {
    SecondBit(p, rw, us + 2 * pwt + 4 * pcd + 8 * a + 16 * d + 32 * ps + 64 * g + 128 * avail + 1024 * pat + 0x800 * upper, v);
  }

  lemma EntryOfAddress(phys: nat, i: nat)
    requires phys % 0x1000 == 0
    ensures EntryAddress(phys / 0x1000, i) == phys + 8 * i
  {
  }

  lemma PointerWritable(mem: nat -> nat, phys: nat, i: nat, e: Pointer)
    requires phys % 0x1000 == 0 && e.InWidth() && e.rw && mem(EntryAddress(phys / 0x1000, i)) == e.Raw()
    ensures WriteBit(mem(phys + 8 * i))
  {
    EntryOfAddress(phys, i);
    PointerWriteBit(e);
  }

  lemma PageWritable(mem: nat -> nat, phys: nat, k: nat, e: LargePage)
    requires phys % 0x1000 == 0 && e.InWidth() && e.rw && mem(EntryAddress(phys / 0x1000 + k / 512, k % 512)) == e.Raw()
    ensures WriteBit(mem(phys + 8 * k))
  {
    AddressOfEntry(phys, k);
    PageWriteBit(e);
  }

  /** On the words in memory: the three entries on the way to any address of memory allow writing. */
  lemma MemoryIsWritable(mem: nat -> nat, end: nat, pml4Phys: nat, pdptPhys: nat, pdPhys: nat, was: Tables, p: nat, i: nat, k: nat)
    requires Loaded(mem, end, pml4Phys, pdptPhys, pdPhys, was)
    requires p < end && 0x4000_0000 * i <= p < 0x4000_0000 * (i + 1) && 0x20_0000 * k <= p < 0x20_0000 * (k + 1)
    ensures mem(pml4Phys + 8 * 256) / 2 % 2 == 1 && mem(pdptPhys + 8 * i) / 2 % 2 == 1 && mem(pdPhys + 8 * k) / 2 % 2 == 1
  {
    Located(p, i, k);
    FilledPage(p, end);
    RootWord(mem, end, pml4Phys, pdptPhys, pdPhys, was);
    FrameOfAddress(pml4Phys);
    PointerWritable(mem, pml4Phys, 256, MappedTable(was.pml4[256], pdptPhys / 0x1000));
    PointerWord(mem, end, pml4Phys, pdptPhys, pdPhys, was, i);
    PointerWritable(mem, pdptPhys, i, MappedTable(was.pdpt[i], pdPhys / 0x1000 + i));
    PageWord(mem, end, pml4Phys, pdptPhys, pdPhys, was, k);
    PageWritable(mem, pdPhys, k, MappedPage(was.pd[k], k));
  }

  /** Two directory entries agree on everything but the base and the bits for present, writable and
      page size. */
  predicate SameElsewhere(e: LargePage, f: LargePage) {
    && e.us == f.us && e.pwt == f.pwt && e.pcd == f.pcd && e.accessed == f.accessed && e.dirty == f.dirty && e.global == f.global
    && e.avail == f.avail && e.pat == f.pat && e.reserved1 == f.reserved1 && e.reserved2 == f.reserved2
    && e.avail2 == f.avail2 && e.exb == f.exb
  }

  predicate SamePointerElsewhere(e: Pointer, f: Pointer) {
    && e.us == f.us && e.pwt == f.pwt && e.pcd == f.pcd && e.accessed == f.accessed && e.reserved1 == f.reserved1
    && e.avail1 == f.avail1 && e.reserved2 == f.reserved2 && e.avail2 == f.avail2 && e.exb == f.exb
  }

  /** Building writes one PML4 entry, a pointer for every gigabyte that memory ends in or goes past,
      and an entry for every 2 MB that begin below the end; the rest is as the pages held it. */
  lemma BuildWritesOnly(end: nat, pdPhys: nat, pdptPhys: nat, was: Tables, x: nat)
    requires |was.pml4| == 512
    ensures var t := Build(end, pdPhys, pdptPhys, was);
      && |t.pml4| == 512 && |t.pdpt| == |was.pdpt| && |t.pd| == |was.pd|
      && (x < 512 && x != 256 ==> t.pml4[x] == was.pml4[x]) && SamePointerElsewhere(t.pml4[256], was.pml4[256])
      && (x < |was.pdpt| ==> SamePointerElsewhere(t.pdpt[x], was.pdpt[x]))
      && (x < |was.pdpt| && end < 0x4000_0000 * x ==> t.pdpt[x] == was.pdpt[x])
      && (x < |was.pd| ==> SameElsewhere(t.pd[x], was.pd[x]))
      && (x < |was.pd| && end <= 0x20_0000 * x ==> t.pd[x] == was.pd[x])
  {
  }

  // ---- a page that was not clean ----

  function NoPointer(): Pointer {
    Pointer(false, false, false, false, false, false, 0, 0, 0, 0, 0, false)
  }

  function NoPage(): LargePage {
    LargePage(false, false, false, false, false, false, false, false, false, 0, false, 0, 0, 0, 0, false)
  }

  /** Pages that held zeros but for bit 63 of one directory entry. */
  function StaleTables(): Tables {
    Tables(seq(512, _ => NoPointer()), seq(512, _ => NoPointer()),
           [NoPage().(exb := true)] + seq(511, _ => NoPage()))
  }

  const STALE_END: nat := 0x80_0000
  const STALE_PML4: nat := 0x40_0000
  const STALE_PDPT: nat := 0x40_1000
  const STALE_PD: nat := 0x40_2000

  /** What they hold once the tables for 8 MB of memory are built. */
  function StaleBuilt(): (t: Tables)
    ensures |t.pml4| == |t.pdpt| == |t.pd| == 512
  {
    Build(STALE_END, STALE_PD, STALE_PDPT, StaleTables())
  }

  /** Memory with three tables of 512 entries each. */
  function Stored(t: Tables, a: nat): nat
    requires |t.pml4| == |t.pdpt| == |t.pd| == 512
  {
    if a % 8 != 0 then 0
    else if STALE_PML4 <= a < STALE_PDPT then t.pml4[(a - STALE_PML4) / 8].Raw()
    else if STALE_PDPT <= a < STALE_PD then t.pdpt[(a - STALE_PDPT) / 8].Raw()
    else if STALE_PD <= a < STALE_PD + 0x1000 then t.pd[(a - STALE_PD) / 8].Raw()
    else 0
  }

  function StaleMemory(a: nat): nat {
    Stored(StaleBuilt(), a)
  }

  lemma StoredAt(t: Tables, i: nat)
    requires |t.pml4| == |t.pdpt| == |t.pd| == 512 && i < 512
    ensures Stored(t, STALE_PML4 + 8 * i) == t.pml4[i].Raw()
    ensures Stored(t, STALE_PDPT + 8 * i) == t.pdpt[i].Raw()
    ensures Stored(t, STALE_PD + 8 * i) == t.pd[i].Raw()
  {
    assert (STALE_PML4 + 8 * i) % 8 == 0 && (STALE_PDPT + 8 * i) % 8 == 0 && (STALE_PD + 8 * i) % 8 == 0;
    assert 8 * i / 8 == i;
  }

  lemma StaleTablesInWidth()
    ensures StaleTables().InWidth()
  {
    var t := StaleTables();
    assert forall i :: 0 <= i < 512 ==> t.pml4[i] == NoPointer() && t.pdpt[i] == NoPointer();
    assert forall i :: 0 < i < 512 ==> t.pd[i] == NoPage();
    assert t.pd[0] == NoPage().(exb := true);
  }

  lemma StaleMemoryHolds()
    ensures Holds(StaleMemory, STALE_PML4, STALE_PDPT, STALE_PD, StaleBuilt())
  {
    var t := StaleBuilt();
    forall i | 0 <= i < 512
      ensures StaleMemory(STALE_PML4 + 8 * i) == t.pml4[i].Raw()
      ensures StaleMemory(STALE_PDPT + 8 * i) == t.pdpt[i].Raw()
      ensures StaleMemory(STALE_PD + 8 * i) == t.pd[i].Raw()
    {
      StoredAt(t, i);
    }
  }

  lemma StaleLoaded()
    ensures Loaded(StaleMemory, STALE_END, STALE_PML4, STALE_PDPT, STALE_PD, StaleTables())
  {
    StaleTablesInWidth();
    StaleMemoryHolds();
    assert Entries(STALE_END) == 4 && PtePages(STALE_END) == 1;
  }

  lemma StaleEntries(cpu: Cpu, i: nat, k: nat)
    requires cpu.width >= 12 && i == 0 == k
    ensures var t := StaleTables();
      && CleanPointer(t.pml4[256], cpu.nxe) && StaysHome(MappedTable(t.pml4[256], STALE_PDPT / 0x1000), cpu.width)
      && StaysHome(MappedTable(t.pdpt[i], STALE_PD / 0x1000 + i), cpu.width)
      && (PointerLeads(MappedTable(t.pdpt[i], STALE_PD / 0x1000 + i), i, cpu, CleanPage(t.pd[k], cpu.nxe)) <==> cpu.nxe)
  {
  }

  lemma StaleInReach(cpu: PagingCpu)
    ensures InReach(cpu, STALE_END, STALE_PDPT, STALE_PD)
  {
    PageTimes(12);
    PageTimes(0);
    Pow2Monotone(24, cpu.width);
    assert PtePages(STALE_END) == 1;
  }

  /** One stale bit: the first 2 MB of memory cannot be reached through the kernel's half with NXE
      clear, as the kernel leaves it, and can with NXE set. */
  lemma StaleBitFaults(cpu: PagingCpu)
    ensures Loaded(StaleMemory, STALE_END, STALE_PML4, STALE_PDPT, STALE_PD, StaleTables())
    ensures Walk(StaleMemory, cpu, STALE_PML4, 0xffff_8000_0000_0000) == Some(0) <==> cpu.nxe
  {
    StaleLoaded();
    StaleInReach(cpu);
    var p: nat, i: nat, k: nat := 0, 0, 0;
    StaleEntries(cpu, i, k);
    KernelAddressMapsBack(StaleMemory, cpu, STALE_END, STALE_PML4, STALE_PDPT, STALE_PD, StaleTables(), p, i, k);
  }

  lemma StaleSizeEntry(cpu: Cpu, below: bool)
    requires cpu.width >= 12
    ensures var e := MappedTable(NoPointer().(reserved1 := 2), 0x4000_0000 / 0x1000 + 1);
      StaysHome(e, cpu.width) && (PointerLeads(e, 1, cpu, below) <==> cpu.page1g)
  {
  }

  /** A directory that lies at 1 GB, in pages that held zeros but for bit 7 of its second pointer: that
      pointer stands for the gigabyte it should lead to, and the second gigabyte can be reached
      exactly on a processor with 1 GB pages. */
  lemma StaleSizeBit(mem: nat -> nat, cpu: PagingCpu, end: nat, pml4Phys: nat, pdptPhys: nat, was: Tables, p: nat, k: nat)
    requires Loaded(mem, end, pml4Phys, pdptPhys, 0x4000_0000, was) && InReach(cpu, end, pdptPhys, 0x4000_0000)
    requires was.pml4[256] == NoPointer() && was.pdpt[1] == NoPointer().(reserved1 := 2)
    requires 0x4000_0000 <= p < 0x8000_0000 && p < end && 0x20_0000 * k <= p < 0x20_0000 * (k + 1)
    ensures Walk(mem, cpu, pml4Phys, 0xffff_8000_0000_0000 + p) == Some(p) <==> cpu.page1g
  {
    StaleSizeEntry(cpu, true);
    StaleSizeEntry(cpu, false);
    KernelAddressMapsBack(mem, cpu, end, pml4Phys, pdptPhys, 0x4000_0000, was, p, 1, k);
  }

  // ---- how many pages the directory gets ----

  lemma {:induction false} PagesLog(n: nat)
    requires n > 0
    ensures CalculOrder(n * PAGE_BYTES) == Log2(n)
  {
    LogOfPage();
    PageTimes(Log2(n));
    PageTimes(Log2(n) + 1);
    Pow2IsUnique(n * PAGE_BYTES, Log2(n) + 12);
  }

  /** The entries that fit in the block the kernel asks for. */
  function EntriesGiven(end: nat): nat {
    PagesLog(PtePages(end));
    512 * Pow2(CalculOrder(PtePages(end) * PAGE_BYTES))
  }

  /** The directory is asked for in bytes and the order rounds down: the pages it gets hold all
      the entries exactly when the page count is a power of two, or memory ends on the very
      boundary where the count would have been one. */
  lemma DirectoryFitsIff(end: nat)
    ensures var n := end / 0x4000_0000 + 1;
      n == PtePages(end) && (end <= 0x20_0000 * EntriesGiven(end) <==> n == Pow2(Log2(n)) || end == 0x4000_0000 * Pow2(Log2(n)))
    ensures Entries(end) <= EntriesGiven(end) <==> end <= 0x20_0000 * EntriesGiven(end)
  {
    var n := PtePages(end);
    PagesLog(n);
    assert end / 0x20_0000 / 512 == n - 1;
    assert 0x4000_0000 * (n - 1) <= end < 0x4000_0000 * n;
  }

  /** Memory of just over 2 GB: three pages of entries are needed and two are given. */
  lemma DirectoryTooSmall()
    ensures PtePages(0x8000_0001) == 3 && Entries(0x8000_0001) == 1025
    ensures Entries(0x8000_0001) > EntriesGiven(0x8000_0001)
  {
    assert PtePages(0x8000_0001) == 3;
    PagesLog(3);
    Pow2IsUnique(3, 1);
  }
}
