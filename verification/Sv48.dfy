/** The Sv48 address split and the page-table entry encoding.

    An address has four nine-bit table indices above a twelve-bit offset, and the
    macros ignore every bit above bit 47.  Shifts and masks are written as division
    and remainder, and a bitwise or of disjoint fields as a sum. */
module Sv48 {

  const PGSIZE: nat := 4096
  const NPTENTRIES: nat := 512
  const PHYMEMOFF: nat := 0x8000_0000
  /** PGNUM keeps 31 bits of a physical address, so page numbers have 19 bits. */
  const MAXPAGES: nat := 0x8_0000
  /** Number of distinct virtual page numbers: 36 index bits. */
  const NVPN: nat := 0x10_0000_0000
  const UTOP: nat := 0xffff_fd7f_f000_0000

  const PTE_V: nat := 1
  const PTE_W: nat := 4
  const PTE_SYSCALL_LIMIT: nat := 1024

  function PD0X(la: nat): (i: nat) ensures i < NPTENTRIES { la / 0x80_0000_0000 % 512 }
  function PD1X(la: nat): (i: nat) ensures i < NPTENTRIES { la / 0x4000_0000 % 512 }
  function PD2X(la: nat): (i: nat) ensures i < NPTENTRIES { la / 0x20_0000 % 512 }
  function PTX(la: nat): (i: nat) ensures i < NPTENTRIES { la / 0x1000 % 512 }
  function PGOFF(la: nat): (o: nat) ensures o < PGSIZE { la % 4096 }

  function PGADDR(d0: nat, d1: nat, d2: nat, t: nat, o: nat): nat {
    d0 * 0x80_0000_0000 + d1 * 0x4000_0000 + d2 * 0x20_0000 + t * 0x1000 + o
  }

  /** The virtual page number the tree is indexed by. */
  function Vpn(la: nat): (v: nat) ensures v < NVPN { la / 4096 % NVPN }

  lemma Split512(q: nat, r: nat)
    requires r < 512
    ensures (512 * q + r) / 512 == q && (512 * q + r) % 512 == r
  {}

  lemma SplitPage(q: nat, r: nat)
    requires r < 4096
    ensures (4096 * q + r) / 4096 == q && (4096 * q + r) % 4096 == r
  {}

  /** Each index is a nine-bit digit of the page number. */
  lemma Digits(la: nat)
    ensures var n := la / 0x1000;
            la / 0x20_0000 == n / 512 && la / 0x4000_0000 == n / 512 / 512 && la / 0x80_0000_0000 == n / 512 / 512 / 512
  {
    var n := la / 0x1000;
    assert la / 0x20_0000 == n / 512;
    assert la / 0x4000_0000 == n / 512 / 512;
  }

  /** Splitting an address built from in-range indices gives the indices back. */
  lemma IndicesOfPgaddr(d0: nat, d1: nat, d2: nat, t: nat, o: nat)
    requires d0 < 512 && d1 < 512 && d2 < 512 && t < 512 && o < 4096
    ensures var la := PGADDR(d0, d1, d2, t, o);
            PD0X(la) == d0 && PD1X(la) == d1 && PD2X(la) == d2 && PTX(la) == t && PGOFF(la) == o
  {
    var la := PGADDR(d0, d1, d2, t, o);
    var n2 := 512 * d0 + d1;
    var n1 := 512 * n2 + d2;
    var n := 512 * n1 + t;
    assert la == 4096 * n + o;
    SplitPage(n, o);
    Split512(n1, t);
    Split512(n2, d2);
    Split512(d0, d1);
    Digits(la);
  }

  lemma VpnFromIndices(la: nat)
    ensures Vpn(la) == PD0X(la) * 0x800_0000 + PD1X(la) * 0x4_0000 + PD2X(la) * 0x200 + PTX(la)
  {
    Digits(la);
  }

  lemma DigitsUnique(a0: nat, a1: nat, a2: nat, a3: nat, b0: nat, b1: nat, b2: nat, b3: nat)
    requires a0 < 512 && a1 < 512 && a2 < 512 && a3 < 512
    requires b0 < 512 && b1 < 512 && b2 < 512 && b3 < 512
    requires a0 * 0x800_0000 + a1 * 0x4_0000 + a2 * 0x200 + a3 == b0 * 0x800_0000 + b1 * 0x4_0000 + b2 * 0x200 + b3
    ensures a0 == b0 && a1 == b1 && a2 == b2 && a3 == b3
  {}

  /** Two addresses reach the same leaf entry of a tree exactly when they agree on
      bits 12 to 47: addresses that differ only above bit 47 are aliases. */
  lemma SamePathIffSameVpn(a: nat, b: nat)
    ensures PD0X(a) == PD0X(b) && PD1X(a) == PD1X(b) && PD2X(a) == PD2X(b) && PTX(a) == PTX(b)
            <==> Vpn(a) == Vpn(b)
  {
    VpnFromIndices(a);
    VpnFromIndices(b);
    var a0, a1, a2, a3 := PD0X(a), PD1X(a), PD2X(a), PTX(a);
    var b0, b1, b2, b3 := PD0X(b), PD1X(b), PD2X(b), PTX(b);
    if Vpn(a) == Vpn(b) {
      DigitsUnique(a0, a1, a2, a3, b0, b1, b2, b3);
    }
  }

  /** PGADDR inverts the split on every address below 2^48. */
  lemma PgaddrOfIndices(la: nat)
    requires la < 0x1_0000_0000_0000
    ensures PGADDR(PD0X(la), PD1X(la), PD2X(la), PTX(la), PGOFF(la)) == la
  {
    VpnFromIndices(la);
    assert la / 4096 < NVPN;
  }

  /* ---- entries ---- */

  function Page2Pa(pp: nat): nat { pp * 4096 + PHYMEMOFF }

  /** PGNUM(pa): physical addresses are masked to 31 bits first. */
  function Pa2Page(pa: nat): (pp: nat) ensures pp < MAXPAGES { pa % 0x8000_0000 / 4096 }

  function PTE_ENTRY(pa: nat): nat { pa / 4096 * 1024 }
  function PTE_PHY(w: nat): nat { w / 1024 * 4096 }

  /** The word page_insert stores: PTE_ENTRY(page2pa(pp)) | perm | PTE_V. */
  function PteWord(pp: nat, perm: nat): nat
    requires perm < PTE_SYSCALL_LIMIT
  {
    PTE_ENTRY(Page2Pa(pp)) + (perm / 2 * 2 + PTE_V)
  }

  /** The page number every reader of an entry extracts. */
  function FrameOf(w: nat): (pp: nat) ensures pp < MAXPAGES { Pa2Page(PTE_PHY(w)) }

  /** The masked comparison in page_insert: bits 10 to 53 in place. */
  function PpnField(w: nat): nat { w / 1024 % 0x1000_0000_0000 * 1024 }

  predicate IsValid(w: nat) { w % 2 == 1 }

  lemma Split1024(q: nat, r: nat)
    requires r < 1024
    ensures (1024 * q + r) / 1024 == q && (1024 * q + r) % 1024 == r
  {}

  lemma Split4096(q: nat)
    ensures q * 4096 / 4096 == q
  {}

  lemma Masked(pp: nat)
    requires pp < MAXPAGES
    ensures Pa2Page((pp + 0x8_0000) * 4096) == pp
  {
    assert (pp + 0x8_0000) * 4096 == 0x8000_0000 + pp * 4096;
    assert (0x8000_0000 + pp * 4096) % 0x8000_0000 == pp * 4096;
    Split4096(pp);
  }

  lemma WordParts(pp: nat, perm: nat)
    requires perm < PTE_SYSCALL_LIMIT
    ensures PTE_ENTRY(Page2Pa(pp)) == (pp + 0x8_0000) * 1024
    ensures PteWord(pp, perm) == 1024 * (pp + 0x8_0000) + (perm / 2 * 2 + 1) && perm / 2 * 2 + 1 < 1024
  {
    assert Page2Pa(pp) == (pp + 0x8_0000) * 4096;
    Split4096(pp + 0x8_0000);
  }

  lemma WordFields(w: nat, q: nat, low: nat)
    requires w == 1024 * q + low && low < 1024 && low % 2 == 1 && q < 0x1000_0000_0000
    ensures PTE_PHY(w) == q * 4096 && w % 1024 == low && IsValid(w) && PpnField(w) == q * 1024
  {
    Split1024(q, low);
    Odd(q, low);
    assert w / 1024 % 0x1000_0000_0000 == q;
  }

  lemma Odd(q: nat, low: nat)
    requires low % 2 == 1
    ensures (1024 * q + low) % 2 == 1
  {
    assert 1024 * q + low == 2 * (512 * q + low / 2) + 1;
  }

  lemma PteRoundTrip(pp: nat, perm: nat)
    requires pp < MAXPAGES && perm < PTE_SYSCALL_LIMIT
    ensures var w := PteWord(pp, perm);
            FrameOf(w) == pp && IsValid(w) && PpnField(w) == PTE_ENTRY(Page2Pa(pp))
            && w % 1024 == perm / 2 * 2 + 1
  {
    WordParts(pp, perm);
    assert (perm / 2 * 2 + 1) % 2 == 1;
    WordFields(PteWord(pp, perm), pp + 0x8_0000, perm / 2 * 2 + 1);
    Masked(pp);
  }

  /** The two readers of an entry, pa2page of PTE_PHY and the masked comparison,
      agree on which page an entry built by page_insert names. */
  lemma SamePpnIffSameFrame(a: nat, pa: nat, b: nat)
    requires a < MAXPAGES && b < MAXPAGES && pa < PTE_SYSCALL_LIMIT
    ensures PpnField(PteWord(a, pa)) == PTE_ENTRY(Page2Pa(b)) <==> a == b
  {
    PteRoundTrip(a, pa);
    assert PTE_ENTRY(Page2Pa(a)) == (a + 0x8_0000) * 1024;
    assert PTE_ENTRY(Page2Pa(b)) == (b + 0x8_0000) * 1024;
  }

  /* ---- which top-level slots an environment owns ---- */

  const UVPT_SLOT: nat := 256
  const UENVS_SLOT: nat := 506
  const UPAGES_SLOT: nat := 507
  const MMIO_SLOT: nat := 509
  const KERN_SLOT: nat := 511

  /** Slots env_setup_vm fills from kern_pgdir or with the self map are not owned. */
  predicate Owned(i: nat) {
    i != UVPT_SLOT && i != UENVS_SLOT && i != UPAGES_SLOT && i != MMIO_SLOT && i < KERN_SLOT
  }
}
