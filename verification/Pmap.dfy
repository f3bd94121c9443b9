/** The page allocator and the page-table operations of the riscv kernel, as the
    changes they make to the state.  The methods themselves are in `Kernel`. */
module Pmap {
  import opened Sv48
  import opened PhysMem
  import opened Translation

  /* ---- the free list, as a value ---- */

  lemma PopFree(pages: seq<PageInfo>, head: int, free: map<nat, nat>, n: nat)
    requires FreeList(pages, head, free, n) && n > 0
    ensures 0 <= head < |pages| && head in free
    ensures FreeList(pages[head := PageInfo(NULL, 0)], pages[head].link, free - {head}, n - 1)
  {
    var free' := free - {head};
    var pages' := pages[head := PageInfo(NULL, 0)];
    assert ListedIf(pages, free, n, head);
    var n1 := n - 1;
    forall p: nat ensures ListedIf(pages', free', n1, p) {
      assert ListedIf(pages, free, n, p) && (p in free' ==> free[p] != free[head]);
    }
    forall p: nat ensures UnlistedIf(pages', free', p) { assert UnlistedIf(pages, free, p); }
    if n > 1 { assert pages[head].link in free' && free'[pages[head].link] == n - 2; }
  }

  lemma PushFree(pages: seq<PageInfo>, head: int, free: map<nat, nat>, n: nat, p: nat)
    requires FreeList(pages, head, free, n) && p < |pages| && p !in free
    ensures FreeList(pages[p := PageInfo(head, 0)], p, free[p := n], n + 1)
  {
    var free' := free[p := n];
    var pages' := pages[p := PageInfo(head, 0)];
    if n > 0 { assert ListedIf(pages, free, n, head); }
    var n1 := n + 1;
    forall q: nat ensures ListedIf(pages', free', n1, q) {
      if q != p { assert ListedIf(pages, free, n, q); }
      if q == p && n > 0 { assert free'[head] == n - 1; }
    }
    forall q: nat ensures UnlistedIf(pages', free', q) { assert UnlistedIf(pages, free, q); }
    forall x, y | x in free' && y in free' && free'[x] == free'[y] ensures x == y {
      if x != p { assert ListedIf(pages, free, n, x); }
      if y != p { assert ListedIf(pages, free, n, y); }
    }
  }

  lemma SetRefKeepsFree(pages: seq<PageInfo>, head: int, free: map<nat, nat>, n: nat, p: nat, r: nat)
    requires FreeList(pages, head, free, n) && p < |pages| && p !in free
    ensures FreeList(pages[p := pages[p].(ref := r)], head, free, n)
  {
    var pages' := pages[p := pages[p].(ref := r)];
    forall q: nat ensures ListedIf(pages', free, n, q) {
      assert ListedIf(pages, free, n, q);
    }
    forall q: nat ensures UnlistedIf(pages', free, q) { assert UnlistedIf(pages, free, q); }
  }

  /** p is neither free nor held: reserved at boot, in hand, or leaked. */
  predicate InLimbo(pages: seq<PageInfo>, free: map<nat, nat>, p: nat) {
    p < |pages| && p !in free && pages[p].ref == 0
  }

  /** No page was lost, and none was gained but `used`, which left limbo. */
  ghost predicate Conserved(pages: seq<PageInfo>, free: map<nat, nat>,
                            pages': seq<PageInfo>, free': map<nat, nat>, used: int)
  {
    forall p: nat :: InLimbo(pages', free', p) <==> InLimbo(pages, free, p) && p != used
  }

  /** Two states give every address of every environment the same entry. */
  ghost predicate SameMap(m: Mem, m': Mem) {
    && Sized(m) && Sized(m')
    && forall e: nat, va: nat :: Pte(m', e, va) == Pte(m, e, va)
  }

  lemma SameMapTwice(m: Mem, m': Mem, m'': Mem)
    requires SameMap(m, m') && SameMap(m', m'')
    ensures SameMap(m, m'')
  {}

  /** m' is m with the entry at va in e's space set to w, and nothing else changed. */
  ghost predicate MapsOnly(m: Mem, m': Mem, e: nat, va: nat, w: nat) {
    && Sized(m) && Sized(m')
    && forall x: nat, a: nat ::
         Pte(m', x, a) == if x == e && Vpn(a) == Vpn(va) then w else Pte(m, x, a)
  }

  /* ---- contents of data pages do not matter ---- */

  lemma SameTargetsSameHolders(m: Mem, m': Mem, q: nat)
    requires Sized(m) && Sized(m')
    requires forall s: Slot :: Target(m', s) == Target(m, s)
    ensures Holders(m', q) == Holders(m, q)
  {
    forall x ensures x in Holders(m', q) <==> x in Holders(m, q) {
      InHolders(m, x, q);
      InHolders(m', x, q);
    }
  }

  function SetPage(m: Mem, p: nat, row: seq<nat>): Mem
    requires p < |m.frames|
  {
    m.(frames := m.frames[p := row])
  }

  /** Stores to a data page change no target, so no holder and no translation. */
  lemma DataPageContents(m: Mem, p: nat, row: seq<nat>)
    requires Shape(m) && p < |m.frames| && m.level[p] == DATA && |row| == NPTENTRIES
    ensures Sized(SetPage(m, p, row)) && Shape(SetPage(m, p, row))
    ensures forall s: Slot :: Target(SetPage(m, p, row), s) == Target(m, s)
    ensures forall q: nat :: Holders(SetPage(m, p, row), q) == Holders(m, q)
  {
    var m' := SetPage(m, p, row);
    forall q: nat ensures Holders(m', q) == Holders(m, q) {
      SameTargetsSameHolders(m, m', q);
    }
    forall u, j | 0 <= u < |m'.frames| && 0 <= j < NPTENTRIES ensures EntryOk(m', u, j) {
      assert EntryOk(m, u, j);
    }
  }

  lemma DataPageMap(m: Mem, p: nat, row: seq<nat>)
    requires Shape(m) && p < |m.frames| && m.level[p] == DATA && |row| == NPTENTRIES
    ensures SameMap(m, SetPage(m, p, row))
  {
    var m' := SetPage(m, p, row);
    DataPageContents(m, p, row);
    forall e: nat, va: nat ensures Pte(m', e, va) == Pte(m, e, va) {
      LeafIsTable(m, e, va);
    }
  }

  /* ---- the effect of each operation on the whole state ---- */

  lemma TakeFree(pages: seq<PageInfo>, head: int, free: map<nat, nat>, n: nat)
    requires FreeList(pages, head, free, n) && n > 0
    ensures 0 <= head < |pages| && head in free && pages[head].ref == 0
    ensures var pages' := pages[head := PageInfo(NULL, 1)];
            && FreeList(pages', pages[head].link, free - {head}, n - 1)
            && Conserved(pages, free, pages', free - {head}, NULL)
  {
    assert ListedIf(pages, free, n, head);
    PopFree(pages, head, free, n);
    var p1 := pages[head := PageInfo(NULL, 0)];
    SetRefKeepsFree(p1, pages[head].link, free - {head}, n - 1, head, 1);
    assert p1[head := p1[head].(ref := 1)] == pages[head := PageInfo(NULL, 1)];
  }

  /** The whole state: tables, PageInfo array and free list. */
  datatype World = World(m: Mem, pages: seq<PageInfo>, head: int, free: map<nat, nat>, n: nat)

  ghost predicate Good(w: World, pending: int) { Inv(w.m, w.pages, w.head, w.free, w.n, pending) }

  /** A clear page p taken off the free list that nothing names yet. */
  ghost predicate InHand(w: World, p: int) {
    && Good(w, p) && 0 <= p < |w.m.frames|
    && w.m.level[p] == DATA && Clear(w.m.frames[p]) && Holders(w.m, p) == {}
  }

  /** From w0 to w only pages taken off the free list changed, each is a table now
      (p apart), no page was lost, and every translation is as before. */
  ghost predicate Grown(w0: World, w: World, p: int) {
    && |w0.m.level| == |w.m.level| == |w.pages| == |w0.pages| && w.m.pgdir == w0.m.pgdir
    && w.free.Keys <= w0.free.Keys && w.n <= w0.n
    && (forall q :: 0 <= q < |w.pages| && q !in w0.free ==> w.m.level[q] == w0.m.level[q] && w.pages[q] == w0.pages[q])
    && (forall q :: q in w0.free && q !in w.free && q != p ==> q < |w.m.level| && w.m.level[q] < DATA)
    && Conserved(w0.pages, w0.free, w.pages, w.free, NULL)
    && SameMap(w0.m, w.m)
  }

  /** page_alloc(ALLOC_ZERO) and pp_ref++: the head of the list, clear and in hand. */
  function Taken(w: World): World
    requires 0 <= w.head < |w.pages| == |w.m.frames| && w.n > 0
  {
    World(SetPage(w.m, w.head, ZeroPage()), w.pages[w.head := PageInfo(NULL, 1)],
          w.pages[w.head].link, w.free - {w.head}, w.n - 1)
  }

  lemma TakenInHand(w: World)
    requires Good(w, NULL) && w.n > 0
    ensures 0 <= w.head < |w.pages| && w.head in w.free && InHand(Taken(w), w.head)
    ensures forall s: Slot :: Target(Taken(w).m, s) == Target(w.m, s)
    ensures forall e: nat, va: nat :: Leaf(Taken(w).m, e, va) == Leaf(w.m, e, va)
  {
    TakeFree(w.pages, w.head, w.free, w.n);
    FreeIsUnheld(w.m, w.pages, w.head, w.free, w.n, NULL, w.head, Root(0));
    DataPageContents(w.m, w.head, ZeroPage());
  }

  lemma TakenGrown(w0: World, w: World)
    requires Good(w, NULL) && w.n > 0 && Grown(w0, w, NULL)
    ensures 0 <= w.head < |w.pages| && Grown(w0, Taken(w), w.head)
  {
    TakeFree(w.pages, w.head, w.free, w.n);
    FreeIsUnheld(w.m, w.pages, w.head, w.free, w.n, NULL, w.head, Root(0));
    DataPageMap(w.m, w.head, ZeroPage());
  }

  /** pgdir[i] = PDE_ENTRY(page2pa(p)) | PTE_V: the page in hand becomes a table. */
  function Linked(w: World, t: nat, i: nat, p: nat): World
    requires Sized(w.m) && t < |w.m.frames| && i < NPTENTRIES && p < |w.m.frames| && w.m.level[t] < 3
  {
    w.(m := LinkTable(w.m, t, i, p))
  }

  predicate Linkable(w: World, t: nat, i: nat) {
    && Sized(w.m) && t < |w.m.frames| && i < NPTENTRIES && w.m.level[t] < 3
    && (w.m.level[t] == 0 ==> Owned(i)) && w.m.frames[t][i] == 0
  }

  /** Linking the page in hand puts its reference to use. */
  lemma LinkedGood(w: World, t: nat, i: nat, p: nat)
    requires InHand(w, p) && Linkable(w, t, i)
    ensures Good(Linked(w, t, i, p), NULL)
    ensures forall s: Slot :: Target(Linked(w, t, i, p).m, s) == if s == Entry(t, i) then p else Target(w.m, s)
  {
    var m' := LinkTable(w.m, t, i, p);
    LinkShape(w.m, t, i, p);
    forall q | 0 <= q < |w.pages| ensures w.pages[q].ref == |Holders(m', q)| {
      LinkHolders(w.m, t, i, p, q);
    }
    forall s: Slot ensures Target(m', s) == if s == Entry(t, i) then p else Target(w.m, s) {
      LinkTargets(w.m, t, i, p, s);
    }
  }

  lemma LinkedGrown(w0: World, w: World, t: nat, i: nat, p: nat)
    requires InHand(w, p) && Linkable(w, t, i) && Grown(w0, w, p) && p in w0.free
    ensures Grown(w0, Linked(w, t, i, p), NULL)
  {
    var m' := LinkTable(w.m, t, i, p);
    LinkTargets(w.m, t, i, p, Entry(t, i));
    forall e: nat, va: nat ensures Pte(m', e, va) == Pte(w0.m, e, va) {
      PteAfterLink(w.m, t, i, p, e, va);
    }
  }

  /** One level of pgdir_create_page_level on a missing slot: link the page in hand,
      then take another one. */
  lemma NextLevel(w0: World, w: World, t: nat, i: nat, p: nat)
    requires InHand(w, p) && Linkable(w, t, i) && Grown(w0, w, p) && p in w0.free
    ensures var w1 := Linked(w, t, i, p);
            && Good(w1, NULL) && Grown(w0, w1, NULL) && w1.m.level[p] == w.m.level[t] + 1
            && (w1.n > 0 ==> && 0 <= w1.head < |w1.pages| && w1.head in w0.free
                             && InHand(Taken(w1), w1.head) && Grown(w0, Taken(w1), w1.head)
                             && FreshChild(w.m, Taken(w1).m, t, i, p))
  {
    var w1 := Linked(w, t, i, p);
    LinkedGood(w, t, i, p);
    LinkedGrown(w0, w, t, i, p);
    if w1.n > 0 {
      TakenInHand(w1);
      TakenGrown(w0, w1);
      LinkedFresh(w, w1, Taken(w1), t, i, p);
    }
  }

  lemma LinkedFresh(w: World, w1: World, w2: World, t: nat, i: nat, p: nat)
    requires InHand(w, p) && Linkable(w, t, i) && w1 == Linked(w, t, i, p) && Sized(w1.m) && Sized(w2.m)
    requires |w2.m.frames| == |w.m.frames| && forall s: Slot :: Target(w2.m, s) == Target(w1.m, s)
    ensures FreshChild(w.m, w2.m, t, i, p)
  {
    forall s: Slot ensures Target(w2.m, s) == if s == Entry(t, i) then p else Target(w.m, s) {
      LinkTargets(w.m, t, i, p, s);
    }
    forall j | 0 <= j < NPTENTRIES ensures Target(w2.m, Entry(p, j)) == NULL {
      assert Target(w.m, Entry(p, j)) == NULL && Entry(p, j) != Entry(t, i);
    }
  }

  /** Slot (t, i) now leads to the empty table p, and no other slot moved. */
  ghost predicate FreshChild(m: Mem, m': Mem, t: nat, i: nat, p: nat) {
    && Sized(m) && Sized(m') && p < |m'.frames|
    && (forall s: Slot :: Target(m', s) == if s == Entry(t, i) then p else Target(m, s))
    && (forall j :: 0 <= j < NPTENTRIES ==> Target(m', Entry(p, j)) == NULL)
  }

  /** Slot (t, i) leads to d: it did before and nothing moved, or d is a new empty table. */
  ghost predicate Ensured(m: Mem, m': Mem, t: nat, i: nat, d: nat) {
    && Sized(m) && Sized(m') && m.pgdir == m'.pgdir && Target(m', Entry(t, i)) == d
    && (Target(m, Entry(t, i)) != NULL ==> m' == m)
    && (Target(m, Entry(t, i)) == NULL ==> FreshChild(m, m', t, i, d))
  }

  /** How many tables the walk for va lacks. */
  function Gaps(m: Mem, e: nat, va: nat): nat
    requires Sized(m)
  {
    if e !in m.pgdir || Leaf(m, e, va) != NULL then 0
    else
      var d1 := Step(m, m.pgdir[e], PD0X(va));
      if d1 == NULL then 3 else if Step(m, d1, PD1X(va)) == NULL then 2 else 1
  }

  /** The count of missing tables depends on what the entries name alone. */
  lemma SameTargetsSameGaps(m: Mem, m': Mem, e: nat, va: nat)
    requires Sized(m) && Sized(m') && m'.pgdir == m.pgdir && forall s: Slot :: Target(m', s) == Target(m, s)
    ensures Gaps(m', e, va) == Gaps(m, e, va)
  {}

  lemma TopGap(m: Mem, e: nat, va: nat)
    requires Sized(m) && e in m.pgdir && Target(m, Entry(m.pgdir[e], PD0X(va))) == NULL
    ensures Gaps(m, e, va) == 3
  {}

  /** One gap for each of the upper slots found empty, and one for the leaf table. */
  lemma GapsSplit(m0: Mem, m1: Mem, e: nat, va: nat, d1: nat)
    requires Sized(m0) && e in m0.pgdir && Leaf(m0, e, va) == NULL && Ensured(m0, m1, m0.pgdir[e], PD0X(va), d1)
    ensures Gaps(m0, e, va) == 1 + (if Target(m0, Entry(m0.pgdir[e], PD0X(va))) == NULL then 1 else 0)
                                 + (if Target(m1, Entry(d1, PD1X(va))) == NULL then 1 else 0)
  {
    if Target(m0, Entry(m0.pgdir[e], PD0X(va))) == NULL { TopGap(m0, e, va); }
  }

  /** If the walk for va failed, then after two levels exist the third slot is empty:
      pgdir_create_page_level always has a use for the last page it took. */
  lemma ThirdSlotMissing(m0: Mem, m1: Mem, m2: Mem, e: nat, va: nat, d1: nat, d2: nat)
    requires Shape(m0) && Shape(m1) && Shape(m2) && e in m0.pgdir && Leaf(m0, e, va) == NULL
    requires Ensured(m0, m1, m0.pgdir[e], PD0X(va), d1) && Ensured(m1, m2, d1, PD1X(va), d2)
    ensures Target(m2, Entry(d2, PD2X(va))) == NULL
    ensures Target(m2, Entry(m0.pgdir[e], PD0X(va))) == d1 && Target(m2, Entry(d1, PD1X(va))) == d2
  {
    var r, i0, i1, i2 := m0.pgdir[e], PD0X(va), PD1X(va), PD2X(va);
    StepLevel(m1, r, i0);
    assert d1 != r;
    if Target(m1, Entry(d1, i1)) == NULL {
      assert Target(m2, Entry(d2, i2)) == NULL;
    } else {
      assert Target(m0, Entry(r, i0)) != NULL;
      assert Leaf(m0, e, va) == Step(m0, d2, i2);
    }
    assert Target(m2, Entry(r, i0)) == Target(m1, Entry(r, i0));
  }

  lemma LastLevel(w0: World, w: World, e: nat, va: nat, d1: nat, d2: nat, p: nat)
    requires InHand(w, p) && Grown(w0, w, p) && p in w0.free && e in w.m.pgdir && d2 < |w.m.frames|
    requires w.m.level[d2] == 2
    requires Target(w.m, Entry(w.m.pgdir[e], PD0X(va))) == d1 && Target(w.m, Entry(d1, PD1X(va))) == d2
    requires Target(w.m, Entry(d2, PD2X(va))) == NULL
    ensures Linkable(w, d2, PD2X(va))
    ensures var w' := Linked(w, d2, PD2X(va), p);
            Good(w', NULL) && Grown(w0, w', NULL) && Leaf(w'.m, e, va) == p == FrameOf(w'.m.frames[d2][PD2X(va)])
  {
    ValidIffTarget(w.m, d2, PD2X(va));
    LinkedGood(w, d2, PD2X(va), p);
    LinkedGrown(w0, w, d2, PD2X(va), p);
    StepLevel(w.m, d1, PD1X(va));
    assert w.m.level[w.m.pgdir[e]] == 0;
    LinkedLeaf(w, e, va, d1, d2, p);
  }

  lemma LinkedLeaf(w: World, e: nat, va: nat, d1: nat, d2: nat, p: nat)
    requires Linkable(w, d2, PD2X(va)) && p < |w.m.frames| && p < MAXPAGES && e in w.m.pgdir
    requires Shape(Linked(w, d2, PD2X(va), p).m)
    requires w.m.level[w.m.pgdir[e]] != 2 && d1 < |w.m.frames| && w.m.level[d1] != 2
    requires Target(w.m, Entry(w.m.pgdir[e], PD0X(va))) == d1 && Target(w.m, Entry(d1, PD1X(va))) == d2
    ensures var w' := Linked(w, d2, PD2X(va), p); Leaf(w'.m, e, va) == p == FrameOf(w'.m.frames[d2][PD2X(va)])
  {
    PteRoundTrip(p, 0);
  }

  /** Building tables since w0, with the clear page p in hand. */
  ghost predicate Building(w0: World, w: World, p: int) {
    InHand(w, p) && Grown(w0, w, p) && p in w0.free
  }

  lemma GrownRefl(w: World)
    requires Good(w, NULL)
    ensures Grown(w, w, NULL)
  {}

  /** Every count follows a leaf entry that moves from one page to another. */
  ghost predicate RefsFollow(m: Mem, pages: seq<PageInfo>, pages': seq<PageInfo>, t: int, i: nat, p: int) {
    && Sized(m) && |pages'| == |pages| && t >= 0
    && forall q :: 0 <= q < |pages| ==>
         pages'[q].ref == pages[q].ref - (if Target(m, Entry(t, i)) == q then 1 else 0) + (if p == q then 1 else 0)
  }

  /** What page_insert may store: nothing, or a well-formed entry for a data page. */
  predicate Storable(m: Mem, w: nat)
    requires Sized(m)
  {
    || w == 0
    || (FrameOf(w) < |m.frames| && m.level[FrameOf(w)] == DATA && IsValid(w) && w == PteWord(FrameOf(w), w % 1024))
  }

  function NamedBy(w: nat): int { if w == 0 then NULL else FrameOf(w) }

  lemma SetLeafMap(m: Mem, e: nat, va: nat, w: nat)
    requires Shape(m) && Leaf(m, e, va) != NULL
    ensures 0 <= Leaf(m, e, va) < |m.frames|
    ensures MapsOnly(m, SetEntry(m, Leaf(m, e, va), PTX(va), w), e, va, w)
  {
    LeafIsTable(m, e, va);
    var m' := SetEntry(m, Leaf(m, e, va), PTX(va), w);
    PteAfterSetLeaf(m, e, va, w, e, va);
    forall x: nat, a: nat ensures Pte(m', x, a) == if x == e && Vpn(a) == Vpn(va) then w else Pte(m, x, a) {
      PteAfterSetLeaf(m, e, va, w, x, a);
    }
  }

  lemma SetLeafCounts(m: Mem, pages: seq<PageInfo>, t: nat, i: nat, w: nat, pages': seq<PageInfo>)
    requires Shape(m) && |pages| == |m.frames| && Exact(m, pages, NULL)
    requires t < |m.frames| && i < NPTENTRIES && m.level[t] == 3
    requires RefsFollow(m, pages, pages', t, i, NamedBy(w))
    ensures Sized(SetEntry(m, t, i, w)) && Exact(SetEntry(m, t, i, w), pages', NULL)
  {
    var m' := SetEntry(m, t, i, w);
    TargetAfterSet(m, t, i, w, Entry(t, i));
    assert Target(m', Entry(t, i)) == NamedBy(w);
    forall q | 0 <= q < |pages'| ensures pages'[q].ref == |Holders(m', q)| {
      HoldersAfterSet(m, t, i, w, q);
    }
  }

  /** Addresses with one page number share one entry. */
  lemma PteOfVpn(m: Mem, e: nat, a: nat, b: nat)
    requires Sized(m) && Vpn(a) == Vpn(b)
    ensures Leaf(m, e, a) == Leaf(m, e, b) && Pte(m, e, a) == Pte(m, e, b)
  {
    SamePathIffSameVpn(a, b);
  }

  lemma UnmappedMapsOnly(m: Mem, e: nat, va: nat)
    requires Sized(m) && Pte(m, e, va) == 0
    ensures MapsOnly(m, m, e, va, 0)
  {
    forall a: nat | Vpn(a) == Vpn(va) ensures Pte(m, e, a) == 0 { PteOfVpn(m, e, a, va); }
  }

  lemma MapsOnlyTwice(m0: Mem, m1: Mem, m2: Mem, e: nat, va: nat, w1: nat, w2: nat)
    requires MapsOnly(m0, m1, e, va, w1) && MapsOnly(m1, m2, e, va, w2)
    ensures MapsOnly(m0, m2, e, va, w2)
  {}

  /** A held page has references and is not on the free list. */
  lemma HeldHasRef(w: World, pending: int, s: Slot, p: nat)
    requires Good(w, pending) && p < |w.pages| && Target(w.m, s) == p
    ensures w.pages[p].ref > 0 && p !in w.free
  {
    InHolders(w.m, s, p);
    assert ListedIf(w.pages, w.free, w.n, p);
    assert |Holders(w.m, p)| > 0;
  }

  /** The mapped page an entry of the flat map names. */
  lemma MappedPage(w: World, e: nat, va: nat)
    requires Good(w, NULL) && Pte(w.m, e, va) != 0
    ensures var p := FrameOf(Pte(w.m, e, va)); var t := Leaf(w.m, e, va);
            && p < |w.pages| && w.m.level[p] == DATA && w.pages[p].ref > 0 && p !in w.free
            && 0 <= t < |w.m.frames| && w.m.level[t] == 3 && Target(w.m, Entry(t, PTX(va))) == p
            && w.m.frames[t][PTX(va)] == PteWord(p, w.m.frames[t][PTX(va)] % 1024)
  {
    LeafIsTable(w.m, e, va);
    var t := Leaf(w.m, e, va);
    ValidIffTarget(w.m, t, PTX(va));
    assert EntryOk(w.m, t, PTX(va));
    HeldHasRef(w, NULL, Entry(t, PTX(va)), FrameOf(Pte(w.m, e, va)));
  }

  /** What unmapping va in e does: that mapping goes, its page loses one reference, and
      is free if it was the last.  Nothing else changes. */
  ghost predicate Removed(w0: World, w: World, e: nat, va: nat) {
    && |w.pages| == |w0.pages| == |w0.m.frames| && MapsOnly(w0.m, w.m, e, va, 0)
    && w.m == Unmapped(w0.m, e, va)
    && var p := NamedBy(Pte(w0.m, e, va));
       && (forall q :: 0 <= q < |w.pages| ==> w.pages[q].ref == w0.pages[q].ref - (if q == p then 1 else 0))
       && w.free.Keys == w0.free.Keys + (if 0 <= p < |w.pages| && w0.pages[p].ref == 1 then {p as nat} else {})
  }

  function Unmapped(m: Mem, e: nat, va: nat): Mem
    requires Sized(m)
  {
    var t := Leaf(m, e, va);
    if 0 <= t < |m.frames| && Pte(m, e, va) != 0 then SetEntry(m, t, PTX(va), 0) else m
  }

  /** Unmapping loses no page: what it releases is on the free list. */
  lemma RemovedConserves(w0: World, w: World, e: nat, va: nat)
    requires Good(w0, NULL) && Removed(w0, w, e, va)
    ensures Conserved(w0.pages, w0.free, w.pages, w.free, NULL)
  {
    if Pte(w0.m, e, va) != 0 { MappedPage(w0, e, va); }
    forall p: nat ensures InLimbo(w.pages, w.free, p) <==> InLimbo(w0.pages, w0.free, p) {
      if p < |w.pages| { assert w.pages[p].ref == w0.pages[p].ref - (if p == NamedBy(Pte(w0.m, e, va)) then 1 else 0); }
      assert p in w.free.Keys <==> p in w.free;
      assert p in w0.free.Keys <==> p in w0.free;
    }
  }

  /** What mapping page pp at va in e with `perm` does: the entry is set, no other
      translation moves, and the only page that leaves limbo is pp. */
  ghost predicate Inserted(w0: World, w: World, e: nat, va: nat, pp: nat, perm: nat) {
    && perm < PTE_SYSCALL_LIMIT
    && MapsOnly(w0.m, w.m, e, va, PteWord(pp, perm))
    && Conserved(w0.pages, w0.free, w.pages, w.free, pp)
  }

  function Counted(w: World, t: nat, i: nat, pp: nat, x: nat): World
    requires Sized(w.m) && t < |w.m.frames| && i < NPTENTRIES && pp < |w.pages|
  {
    w.(m := SetEntry(w.m, t, i, x), pages := w.pages[pp := w.pages[pp].(ref := w.pages[pp].ref + 1)])
  }

  /** pp_ref++ and storing an entry x for pp, where va was not mapped. */
  lemma StoredKeeps(w: World, e: nat, va: nat, pp: nat, x: nat)
    requires Good(w, NULL) && Leaf(w.m, e, va) != NULL && Pte(w.m, e, va) == 0 && x != 0
    requires pp < |w.pages| && pp !in w.free && Storable(w.m, x) && FrameOf(x) == pp
    ensures 0 <= Leaf(w.m, e, va) < |w.m.frames|
    ensures var w' := Counted(w, Leaf(w.m, e, va), PTX(va), pp, x); Good(w', NULL) && MapsOnly(w.m, w'.m, e, va, x)
  {
    LeafIsTable(w.m, e, va);
    var t := Leaf(w.m, e, va);
    ValidIffTarget(w.m, t, PTX(va));
    SetRefKeepsFree(w.pages, w.head, w.free, w.n, pp, w.pages[pp].ref + 1);
    SetLeafKeeps(w.m, w.pages, w.head, w.free, w.n, e, va, x, Counted(w, t, PTX(va), pp, x).pages, w.head, w.free, w.n);
  }

  lemma MapInKeeps(w: World, e: nat, va: nat, pp: nat, perm: nat)
    requires Good(w, NULL) && Leaf(w.m, e, va) != NULL && Pte(w.m, e, va) == 0
    requires pp < |w.pages| && w.m.level[pp] == DATA && pp !in w.free && perm < PTE_SYSCALL_LIMIT
    ensures 0 <= Leaf(w.m, e, va) < |w.m.frames|
    ensures var w' := Counted(w, Leaf(w.m, e, va), PTX(va), pp, PteWord(pp, perm));
            Good(w', NULL) && Inserted(w, w', e, va, pp, perm)
  {
    WordStorable(w.m, pp, perm);
    StoredKeeps(w, e, va, pp, PteWord(pp, perm));
  }

  /** Re-inserting the page already mapped at va only changes the permissions. */
  lemma RemapKeeps(w: World, e: nat, va: nat, perm: nat)
    requires Good(w, NULL) && Pte(w.m, e, va) != 0 && perm < PTE_SYSCALL_LIMIT
    ensures 0 <= Leaf(w.m, e, va) < |w.m.frames|
    ensures var pp := FrameOf(Pte(w.m, e, va));
            var w' := w.(m := SetEntry(w.m, Leaf(w.m, e, va), PTX(va), PteWord(pp, perm)));
            Good(w', NULL) && Inserted(w, w', e, va, pp, perm)
  {
    MappedPage(w, e, va);
    var pp := FrameOf(Pte(w.m, e, va));
    WordStorable(w.m, pp, perm);
    SetLeafKeeps(w.m, w.pages, w.head, w.free, w.n, e, va, PteWord(pp, perm), w.pages, w.head, w.free, w.n);
  }

  /** After va is unmapped its entry is clear, and any other page is as it was. */
  lemma RemovedReady(w: World, w': World, e: nat, va: nat, pp: nat)
    requires Good(w, NULL) && Pte(w.m, e, va) != 0 && Removed(w, w', e, va)
    requires pp < |w.pages| && pp !in w.free && FrameOf(Pte(w.m, e, va)) != pp
    ensures Leaf(w'.m, e, va) == Leaf(w.m, e, va) && Pte(w'.m, e, va) == 0
    ensures pp !in w'.free && w'.pages[pp].ref == w.pages[pp].ref
  {
    MappedPage(w, e, va);
    LeafAfterSetLeaf(w.m, Leaf(w.m, e, va), PTX(va), 0, e, va);
    assert pp !in w'.free.Keys;
  }

  /** The fix-up at the end of page_insert never fires: a mapped page is not the head
      of the free list. */
  lemma MappedNotHead(w: World, e: nat, va: nat, pp: nat, perm: nat)
    requires Good(w, NULL) && pp < MAXPAGES && perm < PTE_SYSCALL_LIMIT && Pte(w.m, e, va) == PteWord(pp, perm)
    ensures w.head != pp && pp !in w.free
  {
    PteRoundTrip(pp, perm);
    MappedPage(w, e, va);
  }

  lemma GrownThenInserted(w0: World, w1: World, w2: World, e: nat, va: nat, pp: nat, perm: nat)
    requires Grown(w0, w1, NULL) && Inserted(w1, w2, e, va, pp, perm)
    ensures Inserted(w0, w2, e, va, pp, perm)
  {}

  lemma RemovedThenInserted(w0: World, w1: World, w2: World, e: nat, va: nat, pp: nat, perm: nat)
    requires Good(w0, NULL) && Good(w1, NULL) && Removed(w0, w1, e, va) && Inserted(w1, w2, e, va, pp, perm)
    ensures Inserted(w0, w2, e, va, pp, perm)
  {
    RemovedConserves(w0, w1, e, va);
    MapsOnlyTwice(w0.m, w1.m, w2.m, e, va, 0, PteWord(pp, perm));
  }

  lemma WordStorable(m: Mem, p: nat, perm: nat)
    requires Sized(m) && p < |m.frames| && m.level[p] == DATA && perm < PTE_SYSCALL_LIMIT
    ensures Storable(m, PteWord(p, perm)) && NamedBy(PteWord(p, perm)) == p && PteWord(p, perm) != 0
  {
    PteRoundTrip(p, perm);
  }

  /** Clearing or setting the leaf entry for va, with pp_ref following. */
  lemma SetLeafKeeps(m: Mem, pages: seq<PageInfo>, head: int, free: map<nat, nat>, n: nat,
                     e: nat, va: nat, w: nat, pages': seq<PageInfo>, head': int, free': map<nat, nat>, n': nat)
    requires Inv(m, pages, head, free, n, NULL) && Leaf(m, e, va) != NULL && Storable(m, w)
    requires RefsFollow(m, pages, pages', Leaf(m, e, va), PTX(va), NamedBy(w))
    requires FreeList(pages', head', free', n')
    ensures 0 <= Leaf(m, e, va) < |m.frames|
    ensures var m' := SetEntry(m, Leaf(m, e, va), PTX(va), w);
            Inv(m', pages', head', free', n', NULL) && MapsOnly(m, m', e, va, w) && Leaf(m', e, va) == Leaf(m, e, va)
  {
    LeafIsTable(m, e, va);
    var t, i := Leaf(m, e, va), PTX(va);
    SetLeafMap(m, e, va, w);
    SetLeafShape(m, t, i, w);
    SetLeafCounts(m, pages, t, i, w, pages');
    LeafAfterSetLeaf(m, t, i, w, e, va);
  }

  /** The steps of page_remove on a mapped page add up to Removed. */
  lemma RemovedDone(w0: World, w: World, e: nat, va: nat, t: nat, p: nat)
    requires Good(w0, NULL) && Pte(w0.m, e, va) != 0 && t == Leaf(w0.m, e, va) && p == FrameOf(Pte(w0.m, e, va))
    requires t < |w0.m.frames| && w.m == SetEntry(w0.m, t, PTX(va), 0) && |w.pages| == |w0.pages| == |w0.m.frames|
    requires p < |w.pages| && FreeList(w.pages, w.head, w.free, w.n)
    requires forall q :: 0 <= q < |w.pages| ==> w.pages[q].ref == w0.pages[q].ref - (if q == p then 1 else 0)
    requires w.free.Keys == w0.free.Keys + (if w0.pages[p].ref == 1 then {p} else {})
    ensures Good(w, NULL) && Removed(w0, w, e, va)
  {
    MappedPage(w0, e, va);
    SetLeafKeeps(w0.m, w0.pages, w0.head, w0.free, w0.n, e, va, 0, w.pages, w.head, w.free, w.n);
  }

  /** In an owned slot of a table, the PTE_V test and the non-zero test agree. */
  lemma ValidIffTarget(m: Mem, t: nat, i: nat)
    requires Shape(m) && t < |m.frames| && i < NPTENTRIES && m.level[t] < DATA && (m.level[t] == 0 ==> Owned(i))
    ensures IsValid(m.frames[t][i]) <==> Target(m, Entry(t, i)) != NULL
    ensures IsValid(m.frames[t][i]) <==> m.frames[t][i] != 0
    ensures IsValid(m.frames[t][i]) ==> Target(m, Entry(t, i)) == FrameOf(m.frames[t][i])
  {
    assert EntryOk(m, t, i);
  }

  lemma NoTables(m: Mem)
    requires Sized(m) && m.pgdir == map[] && m.lost == {} && forall t :: 0 <= t < |m.level| ==> m.level[t] == DATA
    ensures Shape(m) && forall p: nat :: Holders(m, p) == {}
  {
    assert forall s :: Target(m, s) == NULL;
  }

  lemma MiscountBreaks(w: World, w': World, pp: nat)
    requires Good(w, NULL) && pp < |w.pages| == |w'.pages| && w'.m == w.m && w'.pages[pp].ref != w.pages[pp].ref
    ensures !Good(w', NULL)
  {
    assert w.pages[pp].ref == |Holders(w.m, pp)|;
  }

  /** pp_ref++ on the 16-bit field. */
  function Bumped(r: nat): nat { if r >= 0xFFFF then 0 else r + 1 }

  function Wrapping(w: World, t: nat, i: nat, pp: nat, x: nat): World
    requires Sized(w.m) && t < |w.m.frames| && i < NPTENTRIES && pp < |w.pages|
  {
    w.(m := SetEntry(w.m, t, i, x), pages := w.pages[pp := w.pages[pp].(ref := Bumped(w.pages[pp].ref))])
  }

  /** pp_ref is a uint16: inserting one more mapping, by an entry x for pp, keeps the counts exact
      exactly when the page had fewer than 65535 references. */
  lemma InsertExactIffNoWrap(w: World, e: nat, va: nat, t: nat, pp: nat, x: nat)
    requires Good(w, NULL) && t == Leaf(w.m, e, va) && t < |w.m.frames| && Pte(w.m, e, va) == 0
    requires pp < |w.pages| && pp !in w.free && x != 0 && Storable(w.m, x) && FrameOf(x) == pp
    requires w.pages[pp].ref <= 0xFFFF
    ensures Good(Wrapping(w, t, PTX(va), pp, x), NULL) <==> w.pages[pp].ref < 0xFFFF
  {
    StoredKeeps(w, e, va, pp, x);
    var w1, w' := Counted(w, t, PTX(va), pp, x), Wrapping(w, t, PTX(va), pp, x);
    if w.pages[pp].ref < 0xFFFF { assert w' == w1; } else { MiscountBreaks(w1, w', pp); }
  }

  /** With any word x stored for pp, whose count was raised, the counts stay exact if and only if x
      names pp to its readers. */
  lemma StoredCountsIff(w: World, e: nat, va: nat, t: nat, pp: nat, x: nat)
    requires Good(w, NULL) && t == Leaf(w.m, e, va) && t < |w.m.frames| && Pte(w.m, e, va) == 0 && x != 0
    requires pp < |w.pages|
    ensures var w' := Counted(w, t, PTX(va), pp, x);
            Sized(w'.m) && (Exact(w'.m, w'.pages, NULL) <==> FrameOf(x) == pp)
  {
    LeafIsTable(w.m, e, va);
    var w', i := Counted(w, t, PTX(va), pp, x), PTX(va);
    TargetAfterSet(w.m, t, i, x, Entry(t, i));
    ValidIffTarget(w.m, t, i);
    forall q: nat | q < |w.pages|
      ensures |Holders(w'.m, q)| == w.pages[q].ref + (if FrameOf(x) == q then 1 else 0)
    {
      HoldersAfterSet(w.m, t, i, x, q);
    }
  }

  lemma OddWord(x: nat, q: nat, low: nat)
    requires x / 1024 == q && x % 1024 == low
    ensures x == 1024 * q + low && low < 1024 && low % 2 == x % 2
  {}

  lemma EntryWord(pp: nat, x: nat)
    requires x % 2 == 1 && x / 1024 == pp + 0x8_0000
    ensures x == PteWord(pp, x % 1024)
  {
    var low := x % 1024;
    OddWord(x, pp + 0x8_0000, low);
    WordParts(pp, low);
    assert low / 2 * 2 + 1 == low;
  }

  lemma WordEntry(pp: nat, x: nat, low: nat)
    requires low < 1024 && x == PteWord(pp, low)
    ensures x % 2 == 1 && x / 1024 == pp + 0x8_0000
  {
    WordParts(pp, low);
    Split1024(pp + 0x8_0000, low / 2 * 2 + 1);
    Odd(pp + 0x8_0000, low / 2 * 2 + 1);
  }

  /** An entry for pp: odd, with the page number of pp in bits 10 and up. */
  lemma EntryForIff(m: Mem, pp: nat, x: nat)
    requires Sized(m) && pp < |m.frames| && m.level[pp] == DATA && x != 0
    ensures Storable(m, x) && FrameOf(x) == pp <==> x % 2 == 1 && x / 1024 == pp + 0x8_0000
  {
    if Storable(m, x) && FrameOf(x) == pp { WordEntry(pp, x, x % 1024); }
    if x % 2 == 1 && x / 1024 == pp + 0x8_0000 {
      EntryWord(pp, x);
      PteRoundTrip(pp, x % 1024);
    }
  }

  /** The invariant holds of the same state if and only if x is an entry for pp. */
  lemma StoredGoodIff(w: World, e: nat, va: nat, t: nat, pp: nat, x: nat)
    requires Good(w, NULL) && t == Leaf(w.m, e, va) && t < |w.m.frames| && Pte(w.m, e, va) == 0 && x != 0
    requires pp < |w.pages| && w.m.level[pp] == DATA && pp !in w.free
    ensures Good(Counted(w, t, PTX(va), pp, x), NULL) <==> x % 2 == 1 && x / 1024 == pp + 0x8_0000
  {
    EntryForIff(w.m, pp, x);
    if Storable(w.m, x) && FrameOf(x) == pp {
      StoredKeeps(w, e, va, pp, x);
    } else {
      LeafIsTable(w.m, e, va);
      StoredCountsIff(w, e, va, t, pp, x);
      StoredEntry(w.m, t, PTX(va), x);
    }
  }

  lemma StoredEntry(m: Mem, t: nat, i: nat, x: nat)
    requires Sized(m) && t < |m.frames| && i < NPTENTRIES && m.level[t] == 3 && x != 0
    ensures Sized(SetEntry(m, t, i, x)) && (EntryOk(SetEntry(m, t, i, x), t, i) ==> Storable(m, x))
  {}

  /* ---- page_alloc without a reference, as sys_page_alloc uses it ---- */

  function Allocated(w: World): World
    requires 0 <= w.head < |w.pages| == |w.m.frames| && w.n > 0
  {
    World(SetPage(w.m, w.head, ZeroPage()), w.pages[w.head := PageInfo(NULL, 0)],
          w.pages[w.head].link, w.free - {w.head}, w.n - 1)
  }

  lemma AllocatedConserves(w: World)
    requires FreeList(w.pages, w.head, w.free, w.n) && w.n > 0 && |w.pages| == |w.m.frames|
    ensures 0 <= w.head < |w.pages| && InLimbo(Allocated(w).pages, Allocated(w).free, w.head)
    ensures Conserved(Allocated(w).pages, Allocated(w).free, w.pages, w.free, w.head)
  {
    PopFree(w.pages, w.head, w.free, w.n);
    assert ListedIf(w.pages, w.free, w.n, w.head);
  }

  lemma AllocatedGood(w: World)
    requires Good(w, NULL) && w.n > 0
    ensures 0 <= w.head < |w.pages| && w.m.level[w.head] == DATA
    ensures Good(Allocated(w), NULL) && SameMap(w.m, Allocated(w).m)
    ensures InLimbo(Allocated(w).pages, Allocated(w).free, w.head)
    ensures Conserved(Allocated(w).pages, Allocated(w).free, w.pages, w.free, w.head)
  {
    AllocatedConserves(w);
    PopFree(w.pages, w.head, w.free, w.n);
    assert ListedIf(w.pages, w.free, w.n, w.head);
    FreeIsUnheld(w.m, w.pages, w.head, w.free, w.n, NULL, w.head, Root(0));
    DataPageContents(w.m, w.head, ZeroPage());
    DataPageMap(w.m, w.head, ZeroPage());
  }

  lemma AllocatedGaps(w: World, e: nat, va: nat)
    requires Good(w, NULL) && w.n > 0
    ensures 0 <= w.head < |w.pages| && Sized(Allocated(w).m) && Gaps(Allocated(w).m, e, va) == Gaps(w.m, e, va)
  {
    AllocatedGood(w);
    DataPageContents(w.m, w.head, ZeroPage());
    SameTargetsSameGaps(w.m, Allocated(w).m, e, va);
  }

  /** sys_page_alloc, from its start w0 to its end w2, conserves pages. */
  lemma AllocInserted(w0: World, w2: World, e: nat, va: nat, perm: nat)
    requires Good(w0, NULL) && w0.n > 0 && 0 <= w0.head < |w0.pages|
    requires Inserted(Allocated(w0), w2, e, va, w0.head, perm)
    ensures MapsOnly(w0.m, w2.m, e, va, PteWord(w0.head, perm)) && Conserved(w0.pages, w0.free, w2.pages, w2.free, NULL)
  {
    AllocatedGood(w0);
    var w1 := Allocated(w0);
    forall p: nat ensures InLimbo(w2.pages, w2.free, p) <==> InLimbo(w0.pages, w0.free, p) {
      assert InLimbo(w0.pages, w0.free, p) <==> InLimbo(w1.pages, w1.free, p) && p != w0.head;
      assert InLimbo(w2.pages, w2.free, p) <==> InLimbo(w1.pages, w1.free, p) && p != w0.head;
    }
  }

  function Freed(w: World, p: nat): World
    requires p < |w.pages|
  {
    w.(pages := w.pages[p := PageInfo(w.head, 0)], head := p, free := w.free[p := w.n], n := w.n + 1)
  }

  lemma FreedGood(w: World, p: nat)
    requires Good(w, NULL) && InLimbo(w.pages, w.free, p)
    ensures Good(Freed(w, p), NULL)
  {
    PushFree(w.pages, w.head, w.free, w.n, p);
  }

  /** sys_page_alloc when page_insert fails: the page goes back, nothing is mapped. */
  lemma AllocUndone(w0: World, w2: World)
    requires Good(w0, NULL) && w0.n > 0 && 0 <= w0.head < |w0.pages|
    requires Good(w2, NULL) && Grown(Allocated(w0), w2, NULL)
    ensures w0.head < |w2.pages| && w0.head !in w2.free && w2.pages[w0.head].ref == 0
    ensures var w3 := Freed(w2, w0.head);
            Good(w3, NULL) && SameMap(w0.m, w3.m) && Conserved(w0.pages, w0.free, w3.pages, w3.free, NULL)
  {
    AllocatedGood(w0);
    assert InLimbo(w2.pages, w2.free, w0.head);
    FreedGood(w2, w0.head);
    SameMapTwice(w0.m, Allocated(w0).m, w2.m);
    UndoneConserves(w0, w2);
  }

  lemma UndoneConserves(w0: World, w2: World)
    requires Good(w0, NULL) && w0.n > 0 && 0 <= w0.head < |w0.pages| == |w2.pages|
    requires w0.head !in w2.free && w2.pages[w0.head].ref == 0
    requires Conserved(Allocated(w0).pages, Allocated(w0).free, w2.pages, w2.free, NULL)
    ensures Conserved(w0.pages, w0.free, Freed(w2, w0.head).pages, Freed(w2, w0.head).free, NULL)
  {
    AllocatedGood(w0);
    var w1 := Allocated(w0);
    var w3 := Freed(w2, w0.head);
    forall p: nat ensures InLimbo(w3.pages, w3.free, p) <==> InLimbo(w0.pages, w0.free, p) {
      assert InLimbo(w0.pages, w0.free, p) <==> InLimbo(w1.pages, w1.free, p) && p != w0.head;
      assert InLimbo(w2.pages, w2.free, p) <==> InLimbo(w1.pages, w1.free, p);
    }
  }

  /* ---- page directories ---- */

  function Rooted(w: World, e: nat, p: nat, row: seq<nat>): World
    requires p < |w.m.frames| == |w.m.level|
  {
    w.(m := w.m.(frames := w.m.frames[p := row], pgdir := w.m.pgdir[e := p], level := w.m.level[p := 0]))
  }

  /** The page in hand becomes e's directory; e starts with nothing mapped. */
  lemma RootedGood(w: World, e: nat, p: nat, row: seq<nat>)
    requires InHand(w, p) && e !in w.m.pgdir && |row| == NPTENTRIES
    requires forall i :: 0 <= i < NPTENTRIES && Owned(i) ==> row[i] == 0
    ensures Good(Rooted(w, e, p, row), NULL)
    ensures forall x: nat, a: nat :: Pte(Rooted(w, e, p, row).m, x, a) == if x == e then 0 else Pte(w.m, x, a)
  {
    var m1 := SetPage(w.m, p, row);
    DataPageContents(w.m, p, row);
    DataPageMap(w.m, p, row);
    AddRootKeeps(m1, e, p);
    assert Rooted(w, e, p, row).m == AddRoot(m1, e, p);
    forall x: nat, a: nat ensures Pte(AddRoot(m1, e, p), x, a) == if x == e then 0 else Pte(w.m, x, a) {
      PteAfterAddRoot(m1, e, p, x, a);
    }
  }

  /* ---- how far a count can go ---- */

  lemma {:induction false} FewEntries(held: set<Slot>, n: nat)
    requires forall s :: s in held ==> s.Entry? && s.i < NPTENTRIES && s.t * NPTENTRIES + s.i < n
    ensures |held| <= n
  {
    if n == 0 {
      assert held == {};
    } else {
      var x := Entry((n - 1) / NPTENTRIES, (n - 1) % NPTENTRIES);
      FewEntries(held - {x}, n - 1);
      assert |held| <= |held - {x}| + 1;
    }
  }

  /** A mapped page's count is at most the number of entries there are, so with no more than 127
      pages of memory the 16-bit count cannot wrap. */
  lemma CountWithinEntries(w: World, e: nat, va: nat)
    requires Good(w, NULL) && Pte(w.m, e, va) != 0
    ensures var p := FrameOf(Pte(w.m, e, va)); p < |w.pages| && w.pages[p].ref <= |w.pages| * NPTENTRIES
  {
    MappedPage(w, e, va);
    var p := FrameOf(Pte(w.m, e, va));
    forall s | s in Holders(w.m, p)
      ensures s.Entry? && s.i < NPTENTRIES && s.t * NPTENTRIES + s.i < |w.pages| * NPTENTRIES
    {
      InHolders(w.m, s, p);
      if s.Entry? { assert (s.t + 1) * NPTENTRIES <= |w.pages| * NPTENTRIES; }
    }
    FewEntries(Holders(w.m, p), |w.pages| * NPTENTRIES);
  }
}
