/** Sv39 addresses and page-table entries (include/asm/sv39.h and include/mmu.h;
    section 4.4 of the RISC-V Privileged Architecture, version 20211203).

    Addresses are natural numbers; the shift-and-mask macros are written as division and
    remainder by powers of two. A 64-bit word is kept split at bit 10: the flag bits are a
    bit-vector, so the flag masks are the source's own operations. */
module Sv39 {

  const PAGE_SIZE: nat := 0x1000
  const KERNBASE: nat := 0x8000_0000
  const MEMORY_SIZE: nat := 0x400_0000
  /** Number of physical frames, MEMORY_SIZE >> VPN0_SHIFT. */
  const NPAGE: nat := 0x4000
  /** Physical page number of the first RAM frame, KERNBASE >> VPN0_SHIFT. */
  const BASEPPN: nat := 0x8_0000
  /** Entries of one table, PAGE_SIZE / sizeof(u_long). */
  const NPTE: nat := 512

  const UTEMP: nat := 0x3f_e000
  const UTOP: nat := 0x8000_0000
  const PAGE_TABLE: nat := 0xc000_0000
  /** Root slot of the page-table window. */
  const PPT: nat := 3
  /** Root slots that alias tables of the kernel's template directory. */
  const PKERN: nat := 2
  const PENVS: nat := 4

  const PTE_V: bv10 := 0x001
  const PTE_R: bv10 := 0x002
  const PTE_W: bv10 := 0x004
  const PTE_X: bv10 := 0x008
  const PTE_U: bv10 := 0x010
  const PTE_COW: bv10 := 0x100
  const PTE_LIBRARY: bv10 := 0x200

  function VPN0(va: nat): (n: nat) ensures n < NPTE { va / 0x1000 % 512 }
  function VPN1(va: nat): (n: nat) ensures n < NPTE { va / 0x20_0000 % 512 }
  function VPN2(va: nat): (n: nat) ensures n < NPTE { va / 0x4000_0000 % 512 }

  /** A 64-bit memory word: the bits from 10 up, and the low ten bits. */
  datatype Pte = Pte(ppn: nat, flags: bv10)

  predicate IsValid(p: Pte) { p.flags & PTE_V != 0 }

  /** Not a leaf for the hardware walk (section 4.3.2, step 4). */
  predicate IsPointer(p: Pte) { p.flags & (PTE_R | PTE_W | PTE_X) == 0 }

  predicate InRam(p: Pte) { BASEPPN <= p.ppn < BASEPPN + NPAGE }

  /** PA2PTE(page2pa(frame)) | perm | PTE_V */
  function MkPte(frame: nat, perm: bv10): (p: Pte)
    ensures IsValid(p) && p.ppn - BASEPPN == frame
  {
    Pte(BASEPPN + frame, perm | PTE_V)
  }

  const ZeroPte: Pte := Pte(0, 0)

  /** A page of zero bytes. */
  function ZeroFrame(): (s: seq<Pte>)
    ensures |s| == NPTE && forall e :: 0 <= e < NPTE ==> s[e] == ZeroPte && !IsValid(s[e])
  {
    seq(NPTE, _ => ZeroPte)
  }

  /** The same page as the bytes that user code sees. */
  function ZeroBytes(): (c: seq<bv8>) ensures |c| == PAGE_SIZE { seq(PAGE_SIZE, _ => 0) }

  /* The macros of sv39.h on whole 64-bit words. */

  function PTE2PA(x: bv64): bv64 { (x & 0x003f_ffff_ffff_fc00) << 2 }
  function PTE2PERM(x: bv64): bv64 { x & 0x3ff }
  function PA2PTE(x: bv64): bv64 { (x >> 2) & 0x003f_ffff_ffff_fc00 }

  /** Storing an address with its flags and reading both back loses only the offset in the page
      (section 4.3.2, steps 4 and 8 of the walk). */
  lemma StoreThenDecode(pa: bv64, perm: bv64)
    requires pa < 0x0100_0000_0000_0000 && perm < 0x400
    ensures PTE2PA(PA2PTE(pa) | perm | 1) == pa & 0xffff_ffff_ffff_f000
    ensures PTE2PERM(PA2PTE(pa) | perm | 1) == perm | 1
  {
  }

  /** The word that the mapping calls store. */
  function Word(pa: bv64, perm: bv10): bv64 { PA2PTE(pa) | perm as bv64 | 1 }

  /** The entry that a 64-bit word is, split at bit 10. */
  function Entry(x: bv64): Pte { Pte(AsNat(From10(x)), LowTen(x)) }
  function LowTen(x: bv64): bv10 { (x & 0x3ff) as bv10 }
  function From10(x: bv64): bv64 { x >> 10 }
  function AsNat(x: bv64): nat { x as nat }

  /** The page number of an address: pa >> VPN0_SHIFT. */
  function PageNumber(pa: bv64): nat { AsNat(From12(pa)) }
  function From12(x: bv64): bv64 { x >> 12 }

  lemma WordBits(pa: bv64, perm: bv64)
    requires pa < 0x0100_0000_0000_0000 && perm < 0x400
    ensures From10(PA2PTE(pa) | perm | 1) == From12(pa) == From12(PTE2PA(PA2PTE(pa) | perm | 1))
  {
  }

  lemma WordNumbers(pa: bv64, perm: bv10)
    requires pa < 0x0100_0000_0000_0000
    ensures From10(Word(pa, perm)) == From12(pa) == From12(PTE2PA(Word(pa, perm)))
  {
    hide PA2PTE, PTE2PA, From10, From12;
    WordBits(pa, perm as bv64);
  }

  lemma WordFlags(pa: bv64, perm: bv10)
    requires pa < 0x0100_0000_0000_0000
    ensures LowTen(Word(pa, perm)) == perm | PTE_V && PTE2PERM(Word(pa, perm)) == (perm | PTE_V) as bv64
  {
    hide PA2PTE;
    StoreThenDecode(pa, perm as bv64);
  }

  /** The word that the mapping calls store for the address of a frame and some permissions is the entry MkPte; the
      decoding macros give back its page number and its flags, which are those permissions and PTE_V. */
  lemma StoredEntry(pa: bv64, perm: bv10, frame: nat)
    requires pa < 0x0100_0000_0000_0000 && PageNumber(pa) == BASEPPN + frame
    ensures MkPte(frame, perm) == Entry(Word(pa, perm))
    ensures PageNumber(PTE2PA(Word(pa, perm))) == BASEPPN + frame
    ensures PTE2PERM(Word(pa, perm)) == (perm | PTE_V) as bv64
  {
    hide From10, From12, LowTen, AsNat, PTE2PA, PTE2PERM, Word;
    WordNumbers(pa, perm);
    WordFlags(pa, perm);
  }

  /* Division is pinned down by its quotient and remainder. */

  lemma Div512(x: nat, q: nat, r: nat)
    requires x == q * 512 + r && r < 512
    ensures x / 512 == q && x % 512 == r
  {
  }

  lemma Div4K(x: nat, q: nat, r: nat)
    requires x == q * 0x1000 + r && r < 0x1000
    ensures x / 0x1000 == q && x % 0x1000 == r
  {
  }

  lemma Div2M(x: nat, q: nat, r: nat)
    requires x == q * 0x20_0000 + r && r < 0x20_0000
    ensures x / 0x20_0000 == q && x % 0x20_0000 == r
  {
  }

  lemma Div1G(x: nat, q: nat, r: nat)
    requires x == q * 0x4000_0000 + r && r < 0x4000_0000
    ensures x / 0x4000_0000 == q && x % 0x4000_0000 == r
  {
  }

  /** The address of byte off of page (i, j, k). */
  function Address(i: nat, j: nat, k: nat, off: nat): nat
  {
    i * 0x4000_0000 + j * 0x20_0000 + k * 0x1000 + off
  }

  /** Taking an address apart inverts putting it together. */
  lemma VpnsOfAddress(i: nat, j: nat, k: nat, off: nat)
    requires i < 512 && j < 512 && k < 512 && off < PAGE_SIZE
    ensures var va := Address(i, j, k, off);
            VPN2(va) == i && VPN1(va) == j && VPN0(va) == k && va % PAGE_SIZE == off
  {
    var va := Address(i, j, k, off);
    Div4K(va, (i * 512 + j) * 512 + k, off);
    Div512((i * 512 + j) * 512 + k, i * 512 + j, k);
    Div2M(va, i * 512 + j, k * 0x1000 + off);
    Div512(i * 512 + j, i, j);
    Div1G(va, i, j * 0x20_0000 + k * 0x1000 + off);
    Div512(i, 0, i);
  }

  /** Every address below 2^39 is one such sum, of its own table indices and offset. */
  lemma AddressOfVpns(va: nat)
    requires va < 0x80_0000_0000
    ensures va == Address(VPN2(va), VPN1(va), VPN0(va), va % PAGE_SIZE)
  {
    var p, off := va / 0x1000, va % 0x1000;
    var q, k := p / 512, p % 512;
    var i, j := q / 512, q % 512;
    Div2M(va, q, k * 0x1000 + off);
    Div1G(va, i, j * 0x20_0000 + k * 0x1000 + off);
    Div512(i, 0, i);
  }

  /* The user's window on its own page table (user/include/lib.h). */

  /** Address of pt0[va >> 12]. */
  function Pt0Addr(va: nat): nat { PAGE_TABLE + va / 0x1000 * 8 }
  /** Address of pt1[va >> 21]. */
  function Pt1Addr(va: nat): nat { PAGE_TABLE + PAGE_TABLE / 0x200 + va / 0x20_0000 * 8 }
  /** Address of pt2[va >> 30]. */
  function Pt2Addr(va: nat): nat
  {
    PAGE_TABLE + PAGE_TABLE / 0x200 + PAGE_TABLE / 0x4_0000 + va / 0x4000_0000 * 8
  }

  /** Addresses that alloc_page_user and map_page_user use to open the window on a new table. */
  function Window0(va: nat): nat { PAGE_TABLE + va / 0x200 }
  function Window1(va: nat): nat { PAGE_TABLE + PAGE_TABLE / 0x200 + va / 0x4_0000 }
  const WINDOW_ROOT: nat := PAGE_TABLE + PAGE_TABLE / 0x200 + PAGE_TABLE / 0x4_0000

  lemma Div256K(x: nat, q: nat, r: nat)
    requires x == q * 0x4_0000 + r && r < 0x4_0000
    ensures x / 0x4_0000 == q
  {
  }

  lemma Window0Address(i: nat, j: nat, k: nat, off: nat) returns (c: nat)
    requires i < 512 && j < 512 && k < 512 && off < PAGE_SIZE
    ensures c < PAGE_SIZE && Window0(Address(i, j, k, off)) == Address(PPT, i, j, c)
  {
    var va := Address(i, j, k, off);
    c := k * 8 + off / 512;
    Div512(va, i * 0x20_0000 + j * 0x1000 + c, off % 512);
  }

  lemma Window1Address(i: nat, j: nat, k: nat, off: nat) returns (c: nat)
    requires i < 512 && j < 512 && k < 512 && off < PAGE_SIZE
    ensures c < PAGE_SIZE && Window1(Address(i, j, k, off)) == Address(PPT, PPT, i, c)
  {
    var va := Address(i, j, k, off);
    c := j * 8 + k / 64;
    Div256K(va, i * 0x1000 + c, k % 64 * 0x1000 + off);
  }

  lemma RootWindowAddress()
    ensures WINDOW_ROOT == Address(PPT, PPT, PPT, 0)
  {
  }

  /** Where the three window regions lie: level-0 tables of user slot (i, j) at (3, i, j),
      level-1 tables at (3, 3, i), the root at (3, 3, 3); they never collide below UTOP. */
  lemma WindowGeometry(va: nat)
    requires va < UTOP
    ensures VPN2(va) < 2
    ensures VPN2(Window0(va)) == PPT && VPN1(Window0(va)) == VPN2(va) && VPN0(Window0(va)) == VPN1(va)
    ensures VPN2(Window1(va)) == PPT && VPN1(Window1(va)) == PPT && VPN0(Window1(va)) == VPN2(va)
    ensures VPN2(WINDOW_ROOT) == PPT && VPN1(WINDOW_ROOT) == PPT && VPN0(WINDOW_ROOT) == PPT
  {
    assert VPN2(va) < 2;
    AddressOfVpns(va);
    WindowPages(va, VPN2(va), VPN1(va), VPN0(va), va % PAGE_SIZE);
  }

  lemma WindowPages(va: nat, i: nat, j: nat, k: nat, off: nat)
    requires i < 512 && j < 512 && k < 512 && off < PAGE_SIZE && va == Address(i, j, k, off)
    ensures VPN2(Window0(va)) == PPT && VPN1(Window0(va)) == i && VPN0(Window0(va)) == j
    ensures VPN2(Window1(va)) == PPT && VPN1(Window1(va)) == PPT && VPN0(Window1(va)) == i
    ensures VPN2(WINDOW_ROOT) == PPT && VPN1(WINDOW_ROOT) == PPT && VPN0(WINDOW_ROOT) == PPT
  {
    hide VPN0, VPN1, VPN2, Window0, Window1, Address;
    var c0 := Window0Address(i, j, k, off);
    VpnsOfAddress(PPT, i, j, c0);
    var c1 := Window1Address(i, j, k, off);
    VpnsOfAddress(PPT, PPT, i, c1);
    RootWindowAddress();
    VpnsOfAddress(PPT, PPT, PPT, 0);
  }

  /** The user's array reads fall in those pages, at the index of the entry they look for. */
  lemma WindowReads(va: nat)
    requires va < UTOP
    ensures Pt0Addr(va) == Address(PPT, VPN2(va), VPN1(va), VPN0(va) * 8)
    ensures Pt1Addr(va) == Address(PPT, PPT, VPN2(va), VPN1(va) * 8)
    ensures Pt2Addr(va) == Address(PPT, PPT, PPT, VPN2(va) * 8)
  {
    var i, j, k, off := VPN2(va), VPN1(va), VPN0(va), va % PAGE_SIZE;
    AddressOfVpns(va);
    Div4K(va, i * 0x4_0000 + j * 0x200 + k, off);
    Div2M(va, i * 0x200 + j, k * 0x1000 + off);
    Div1G(va, i, j * 0x20_0000 + k * 0x1000 + off);
  }
}
