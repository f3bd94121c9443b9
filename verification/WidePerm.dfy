/** sys_page_map passes perm to page_insert unchecked: what the bits above bit 9 do to the entry.

    Words are naturals, so the bitwise or of the source is defined digit by digit. */
module WidePerm {
  import opened Sv48
  import opened PhysMem
  import opened Translation
  import opened Pmap

  /* ---- the bitwise or ---- */

  function Or(a: nat, b: nat): nat
    decreases a + b
  {
    if a == 0 && b == 0 then 0 else 2 * Or(a / 2, b / 2) + (if a % 2 == 1 || b % 2 == 1 then 1 else 0)
  }

  /** Every bit of a is in b. */
  predicate SubBits(a: nat, b: nat)
    decreases a
  {
    a == 0 || (a % 2 <= b % 2 && SubBits(a / 2, b / 2))
  }

  lemma {:induction false} OrZero(a: nat)
    ensures Or(a, 0) == a && Or(0, a) == a
  {
    if a > 0 { OrZero(a / 2); }
  }

  lemma {:induction false} OrKeepsIff(a: nat, b: nat)
    ensures Or(b, a) == b <==> SubBits(a, b)
    decreases a
  {
    if a == 0 { OrZero(b); } else { OrKeepsIff(a / 2, b / 2); }
  }

  /** The bits of a from k on, and those below. */
  function High(a: nat, k: nat): nat { if k == 0 then a else High(a / 2, k - 1) }
  function Low(a: nat, k: nat): nat { if k == 0 then 0 else 2 * Low(a / 2, k - 1) + a % 2 }

  function Pow2(k: nat): nat { if k == 0 then 1 else 2 * Pow2(k - 1) }

  lemma {:induction false} Recombine(a: nat, k: nat)
    ensures a == High(a, k) * Pow2(k) + Low(a, k) && Low(a, k) < Pow2(k)
    decreases k
  {
    if k > 0 {
      Recombine(a / 2, k - 1);
      var h, p := High(a / 2, k - 1), Pow2(k - 1);
      assert h * (2 * p) == 2 * (h * p);
    }
  }

  lemma Powers()
    ensures Pow2(10) == 1024 && Pow2(19) == MAXPAGES
  {
    assert Pow2(4) == 16;
    assert Pow2(7) == 128;
    assert Pow2(13) == 8192;
    assert Pow2(16) == 0x1_0000;
  }

  lemma Ten(a: nat)
    ensures High(a, 10) == a / 1024 && Low(a, 10) == a % 1024
  {
    Powers();
    Recombine(a, 10);
  }

  lemma Nineteen(a: nat)
    ensures High(a, 19) == a / MAXPAGES && Low(a, 19) == a % MAXPAGES
  {
    Powers();
    Recombine(a, 19);
  }

  /** The bits from k on, and those below, are the or of the same bits of both. */
  lemma {:induction false} OrSplit(a: nat, b: nat, k: nat)
    ensures High(Or(a, b), k) == Or(High(a, k), High(b, k)) && Low(Or(a, b), k) == Or(Low(a, k), Low(b, k))
    decreases k
  {
    if k == 0 {
      assert Or(0, 0) == 0;
    } else {
      var h := Or(a / 2, b / 2);
      assert Or(a, b) / 2 == h;
      OrSplit(a / 2, b / 2, k - 1);
      OrDigit(Low(a / 2, k - 1), Low(b / 2, k - 1), a % 2, b % 2);
    }
  }

  lemma OrDigit(a: nat, b: nat, x: nat, y: nat)
    requires x < 2 && y < 2
    ensures Or(2 * a + x, 2 * b + y) == 2 * Or(a, b) + (if x == 1 || y == 1 then 1 else 0)
  {}

  /* ---- the word page_insert stores ---- */

  /** PTE_ENTRY(page2pa(pp)) | perm | PTE_V, for any perm. */
  function WideWord(pp: nat, perm: nat): nat { Or(Or((pp + 0x8_0000) * 1024, perm), 1) }

  lemma {:induction false} WideWordParts(pp: nat, perm: nat)
    ensures WideWord(pp, perm) / 1024 == Or(pp + 0x8_0000, perm / 1024)
    ensures WideWord(pp, perm) % 1024 == perm % 1024 / 2 * 2 + 1
  {
    var base := (pp + 0x8_0000) * 1024;
    OrTen(base, perm);
    OrTen(Or(base, perm), 1);
    OrZero(Or(base, perm) / 1024);
    OrZero(perm % 1024);
    LowOne(perm % 1024);
  }

  lemma OrTen(a: nat, b: nat)
    ensures Or(a, b) / 1024 == Or(a / 1024, b / 1024) && Or(a, b) % 1024 == Or(a % 1024, b % 1024)
  {
    OrSplit(a, b, 10);
    Ten(a);
    Ten(b);
    Ten(Or(a, b));
  }

  lemma LowOne(a: nat)
    ensures Or(a, 1) == a / 2 * 2 + 1
  {
    OrZero(a / 2);
  }

  /** Within PTE_SYSCALL it is the word of `PteWord`. */
  lemma WideWordNarrow(pp: nat, perm: nat)
    requires perm < PTE_SYSCALL_LIMIT
    ensures WideWord(pp, perm) == PteWord(pp, perm)
  {
    WideWordParts(pp, perm);
    OrZero(pp + 0x8_0000);
    WordParts(pp, perm);
  }

  lemma FrameIsLow(x: nat)
    ensures FrameOf(x) == x / 1024 % MAXPAGES
  {
    var q := x / 1024;
    assert q * 4096 == q / MAXPAGES * 0x8000_0000 + q % MAXPAGES * 4096;
  }

  /** The readers of the entry find the page meant if and only if the bits of perm from 10 to 28 are
      already in the page's index. */
  lemma WideNamesPageIff(pp: nat, perm: nat)
    requires pp < MAXPAGES
    ensures FrameOf(WideWord(pp, perm)) == pp <==> SubBits(perm / 1024 % MAXPAGES, pp)
  {
    var ppn, high := pp + 0x8_0000, perm / 1024;
    WideWordParts(pp, perm);
    FrameIsLow(WideWord(pp, perm));
    OrSplit(ppn, high, 19);
    Nineteen(ppn);
    Nineteen(high);
    Nineteen(Or(ppn, high));
    OrKeepsIff(high % MAXPAGES, pp);
  }

  /** The whole page number is the one meant if and only if all bits of perm above 9 are in it. */
  lemma WideExactIff(pp: nat, perm: nat)
    ensures WideWord(pp, perm) / 1024 == pp + 0x8_0000 <==> SubBits(perm / 1024, pp + 0x8_0000)
  {
    WideWordParts(pp, perm);
    OrKeepsIff(perm / 1024, pp + 0x8_0000);
  }

  /* ---- the state it leaves ---- */

  /** page_insert of pp with any perm stores x at an address that is not mapped: the counts stay exact
      if and only if the readers of the entry find the page meant. */
  lemma CountsExactIff(w: World, e: nat, va: nat, t: nat, pp: nat, perm: nat, x: nat)
    requires Good(w, NULL) && t == Leaf(w.m, e, va) && t < |w.m.frames| && Pte(w.m, e, va) == 0
    requires pp < |w.pages| && x == WideWord(pp, perm)
    ensures var w' := Counted(w, t, PTX(va), pp, x);
            Sized(w'.m) && (Exact(w'.m, w'.pages, NULL) <==> SubBits(perm / 1024 % MAXPAGES, pp))
  {
    WideWordParts(pp, perm);
    WideNamesPageIff(pp, perm);
    StoredCountsIff(w, e, va, t, pp, x);
  }

  /** The invariant holds if and only if no bit of perm changes the page number. */
  lemma InvariantIff(w: World, e: nat, va: nat, t: nat, pp: nat, perm: nat, x: nat)
    requires Good(w, NULL) && t == Leaf(w.m, e, va) && t < |w.m.frames| && Pte(w.m, e, va) == 0
    requires pp < |w.pages| && w.m.level[pp] == DATA && pp !in w.free && x == WideWord(pp, perm)
    ensures Good(Counted(w, t, PTX(va), pp, x), NULL) <==> SubBits(perm / 1024, pp + 0x8_0000)
  {
    WideOdd(pp, perm);
    WideExactIff(pp, perm);
    StoredGoodIff(w, e, va, t, pp, x);
  }

  lemma WideOdd(pp: nat, perm: nat)
    ensures WideWord(pp, perm) % 2 == 1
  {
    OddEnd(Or((pp + 0x8_0000) * 1024, perm), WideWord(pp, perm));
  }

  lemma OddEnd(a: nat, w: nat)
    requires w == Or(a, 1)
    ensures w % 2 == 1
  {
    LowOne(a);
  }

  /* ---- an input ---- */

  /** Page 0 is a directory, 1 to 3 are the tables under it, and 4 and 5 are mapped at 0 and PGSIZE. */
  function Named(t: nat, i: nat): int {
    if t < 4 && i == 0 then t + 1 else if t == 3 && i == 1 then 5 else NULL
  }

  function Text(t: nat, i: nat): nat {
    if Named(t, i) == NULL then 0 else PteWord(Named(t, i), 6)
  }

  function Small(): World {
    World(Mem(seq(6, t requires 0 <= t => seq(NPTENTRIES, i requires 0 <= i => Text(t, i))),
              seq(6, t requires 0 <= t => if t < 4 then t else DATA), map[0 := 0], {}),
          seq(6, _ => PageInfo(NULL, 1)), NULL, map[], 0)
  }

  lemma Names(t: nat, i: nat)
    requires t < 6 && i < NPTENTRIES
    ensures Sized(Small().m) && Target(Small().m, Entry(t, i)) == Named(t, i) && EntryOk(Small().m, t, i)
  {
    if Named(t, i) != NULL { PteRoundTrip(Named(t, i), 6); }
    assert Small().m.frames[t][i] == Text(t, i);
  }

  function Parent(p: nat): Slot { if p == 0 then Root(0) else if p == 5 then Entry(3, 1) else Entry(p - 1, 0) }

  lemma OneParent(p: nat)
    requires p < 6
    ensures Sized(Small().m) && Holders(Small().m, p) == {Parent(p)}
  {
    var m := Small().m;
    Names(0, 0);
    forall s: Slot ensures s in Holders(m, p) <==> s == Parent(p) {
      InHolders(m, s, p);
      if s.Entry? && s.t < 6 && s.i < NPTENTRIES { Names(s.t, s.i); }
    }
  }

  lemma SmallGood()
    ensures Good(Small(), NULL)
  {
    var w := Small();
    Names(0, 0);
    forall t, i | 0 <= t < 6 && 0 <= i < NPTENTRIES ensures EntryOk(w.m, t, i) { Names(t, i); }
    forall p | 0 <= p < 6 ensures |Holders(w.m, p)| == 1 { OneParent(p); }
  }

  lemma LeafOfSmall()
    ensures Sized(Small().m) && Leaf(Small().m, 0, 2 * PGSIZE) == 3 && Pte(Small().m, 0, 2 * PGSIZE) == 0
  {
    Names(0, 0);
    Names(1, 0);
    Names(2, 0);
    Names(3, 2);
    assert PD0X(2 * PGSIZE) == 0 && PD1X(2 * PGSIZE) == 0 && PD2X(2 * PGSIZE) == 0 && PTX(2 * PGSIZE) == 2;
  }

  lemma WordOfFive()
    ensures WideWord(4, 0x400) == PteWord(5, 0) && !SubBits(0x400 / 1024 % MAXPAGES, 4)
  {
    WideWordParts(4, 0x400);
    WordParts(5, 0);
    assert Or(0x8_0004 / 2, 0) == 0x8_0004 / 2 by { OrZero(0x8_0004 / 2); }
  }

  /** Mapping page 4 once more, with perm 0x400, makes an entry for page 5 and breaks the counts. */
  lemma WidePermExample(x: nat)
    requires x == WideWord(4, 0x400)
    ensures Good(Small(), NULL) && Leaf(Small().m, 0, 2 * PGSIZE) == 3 && x == PteWord(5, 0)
    ensures var w' := Counted(Small(), 3, PTX(2 * PGSIZE), 4, x); Sized(w'.m) && !Exact(w'.m, w'.pages, NULL)
  {
    SmallGood();
    LeafOfSmall();
    WordOfFive();
    CountsExactIff(Small(), 0, 2 * PGSIZE, 3, 4, 0x400, x);
  }
}
