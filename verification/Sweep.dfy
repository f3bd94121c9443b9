/** What env_free's sweep of the first top-level slot does to the state, step by step. */
module Sweep {
  import opened Sv48
  import opened PhysMem
  import opened Translation
  import opened Pmap

  /** Pages covered by top-level slot 0: three nine-bit indices. */
  const SLOT0: nat := 0x800_0000

  /** The slot-0 pages of environment e that are mapped to physical page p. */
  function Slot0Maps(m: Mem, e: nat, p: nat): set<nat>
    requires Sized(m)
  {
    set v: nat | v < SLOT0 && NamedBy(Pte(m, e, v * PGSIZE)) == p
  }

  lemma Slot0Vpn(v: nat)
    requires v < SLOT0
    ensures Vpn(v * PGSIZE) == v && PD0X(v * PGSIZE) == 0
  {}

  lemma Slot0Other(m: Mem, m': Mem, e: nat, v: nat, x: nat)
    requires v < SLOT0 && x < SLOT0 && MapsOnly(m, m', e, v * PGSIZE, 0)
    ensures Pte(m', e, x * PGSIZE) == if x == v then 0 else Pte(m, e, x * PGSIZE)
  {
    Slot0Vpn(x);
    Slot0Vpn(v);
  }

  /** Unmapping one slot-0 page takes exactly that page out of the mappings. */
  lemma Slot0AfterRemove(m: Mem, m': Mem, e: nat, v: nat, p: nat)
    requires v < SLOT0 && MapsOnly(m, m', e, v * PGSIZE, 0)
    ensures |Slot0Maps(m', e, p)| == |Slot0Maps(m, e, p)| - (if p == NamedBy(Pte(m, e, v * PGSIZE)) then 1 else 0)
  {
    forall x: nat ensures x in Slot0Maps(m', e, p) <==> x in Slot0Maps(m, e, p) - {v} {
      if x < SLOT0 { Slot0Other(m, m', e, v, x); }
    }
    var maps := Slot0Maps(m, e, p);
    assert Slot0Maps(m', e, p) == maps - {v};
    if p == NamedBy(Pte(m, e, v * PGSIZE)) {
      assert v in maps;
    } else {
      assert maps - {v} == maps;
    }
  }

  lemma Slot0Same(m: Mem, m': Mem, e: nat, p: nat)
    requires SameMap(m, m')
    ensures Slot0Maps(m', e, p) == Slot0Maps(m, e, p)
  {}

  /** The translations of every other environment, and of e outside slot 0, are kept. */
  ghost predicate KeepsOthers(m: Mem, m': Mem, e: nat) {
    && Sized(m) && Sized(m')
    && forall x: nat, a: nat :: x != e || PD0X(a) != 0 ==> Pte(m', x, a) == Pte(m, x, a)
  }

  /** Each page mapped in e has lost as many references as it has lost slot-0 mappings. */
  ghost predicate InStep(w0: World, w: World, e: nat) {
    && Sized(w0.m) && Sized(w.m) && |w.pages| == |w0.pages| == |w0.m.frames| == |w.m.frames|
    && forall p :: 0 <= p < |w.pages| && w0.m.level[p] == DATA ==>
         w.m.level[p] == DATA && w0.pages[p].ref - |Slot0Maps(w0.m, e, p)| == w.pages[p].ref - |Slot0Maps(w.m, e, p)|
  }

  /** The invariant of every loop of the sweep. */
  ghost predicate Swept(w0: World, w: World, e: nat) {
    && Good(w, NULL) && w.m.pgdir == w0.m.pgdir && w.m.lost == w0.m.lost
    && KeepsOthers(w0.m, w.m, e) && InStep(w0, w, e) && Conserved(w0.pages, w0.free, w.pages, w.free, NULL)
  }

  lemma SweptRefl(w: World, e: nat)
    requires Good(w, NULL)
    ensures Swept(w, w, e)
  {}

  lemma SweptRemove(w0: World, w: World, w': World, e: nat, v: nat)
    requires v < SLOT0 && Swept(w0, w, e) && Good(w', NULL) && Removed(w, w', e, v * PGSIZE)
    ensures Swept(w0, w', e)
  {
    Slot0Vpn(v);
    RemovedConserves(w, w', e, v * PGSIZE);
    forall x: nat, a: nat | x != e || PD0X(a) != 0 ensures Pte(w'.m, x, a) == Pte(w0.m, x, a) {
      SamePathIffSameVpn(a, v * PGSIZE);
    }
    forall p | 0 <= p < |w'.pages| && w0.m.level[p] == DATA
      ensures w'.m.level[p] == DATA
      ensures w0.pages[p].ref - |Slot0Maps(w0.m, e, p)| == w'.pages[p].ref - |Slot0Maps(w'.m, e, p)|
    {
      Slot0AfterRemove(w.m, w'.m, e, v, p);
    }
    forall p: nat ensures InLimbo(w'.pages, w'.free, p) <==> InLimbo(w0.pages, w0.free, p) {
      assert InLimbo(w'.pages, w'.free, p) <==> InLimbo(w.pages, w.free, p);
    }
  }

  /** An empty table p has left slot (t, i) and lost its only reference. */
  ghost predicate Dropped(w: World, w': World, t: nat, i: nat, p: nat) {
    && Sized(w.m) && t < |w.m.frames| && i < NPTENTRIES && p < |w.m.frames| == |w.pages| == |w'.pages|
    && w'.m == UnlinkTable(w.m, t, i, p)
    && FreeList(w'.pages, w'.head, w'.free, w'.n)
    && w'.free.Keys == w.free.Keys + {p}
    && forall q :: 0 <= q < |w'.pages| ==> w'.pages[q].ref == w.pages[q].ref - (if q == p then 1 else 0)
  }

  predicate HoldsEmpty(m: Mem, t: nat, i: nat, p: nat) {
    && Sized(m) && t < |m.frames| && i < NPTENTRIES && p < |m.frames| && m.level[t] < 3
    && Target(m, Entry(t, i)) == p && ClearBelow(m, p, NPTENTRIES)
  }

  /** The first n entries of table p name nothing. */
  predicate ClearBelow(m: Mem, p: nat, n: nat) {
    Sized(m) && forall j :: 0 <= j < n ==> Target(m, Entry(p, j)) == NULL
  }

  lemma DroppedGood(w: World, w': World, t: nat, i: nat, p: nat)
    requires Good(w, NULL) && HoldsEmpty(w.m, t, i, p) && Dropped(w, w', t, i, p)
    ensures Good(w', NULL) && SameMap(w.m, w'.m)
  {
    UnlinkShape(w.m, t, i, p);
    forall q | 0 <= q < |w'.pages| ensures w'.pages[q].ref == |Holders(w'.m, q)| {
      UnlinkHolders(w.m, t, i, p, q);
    }
    forall e: nat, va: nat ensures Pte(w'.m, e, va) == Pte(w.m, e, va) {
      PteAfterUnlink(w.m, t, i, p, e, va);
    }
  }

  lemma SweptDrop(w0: World, w: World, w': World, e: nat, t: nat, i: nat, p: nat)
    requires Swept(w0, w, e) && HoldsEmpty(w.m, t, i, p) && Dropped(w, w', t, i, p)
    ensures Swept(w0, w', e)
  {
    DroppedGood(w, w', t, i, p);
    StepLevel(w.m, t, i);
    forall q | 0 <= q < |w'.pages| && w0.m.level[q] == DATA
      ensures w'.m.level[q] == DATA
      ensures w0.pages[q].ref - |Slot0Maps(w0.m, e, q)| == w'.pages[q].ref - |Slot0Maps(w'.m, e, q)|
    {
      Slot0Same(w.m, w'.m, e, q);
    }
    HeldHasRef(w, NULL, Entry(t, i), p);
    forall q: nat ensures InLimbo(w'.pages, w'.free, q) <==> InLimbo(w0.pages, w0.free, q) {
      assert InLimbo(w.pages, w.free, q) <==> InLimbo(w0.pages, w0.free, q);
      assert q in w'.free.Keys <==> q == p || q in w.free.Keys;
    }
  }

  /* ---- what the loops may rely on between their steps ---- */

  /** Tables at level L and above are untouched. */
  ghost predicate UpperKept(m: Mem, m': Mem, L: nat) {
    && Sized(m) && Sized(m') && |m'.frames| == |m.frames| && m'.pgdir == m.pgdir
    && forall t :: 0 <= t < |m.frames| && m.level[t] <= L ==> m'.level[t] == m.level[t] && m'.frames[t] == m.frames[t]
  }

  lemma StepUpper(m: Mem, m': Mem, L: nat, t: int, i: nat)
    requires L < DATA && UpperKept(m, m', L) && (0 <= t < |m.frames| ==> m.level[t] <= L)
    ensures Step(m', t, i) == Step(m, t, i)
  {}

  lemma LeafUpper(m: Mem, m': Mem, e: nat, va: nat)
    requires Shape(m) && UpperKept(m, m', 2)
    ensures Leaf(m', e, va) == Leaf(m, e, va)
  {
    if e in m.pgdir {
      var x0, i0, i1, i2 := m.pgdir[e], PD0X(va), PD1X(va), PD2X(va);
      StepUpper(m, m', 2, x0, i0);
      var x1 := Step(m, x0, i0);
      if x1 != NULL {
        StepLevel(m, x0, i0);
        StepUpper(m, m', 2, x1, i1);
        var x2 := Step(m, x1, i1);
        if x2 != NULL {
          StepLevel(m, x1, i1);
          StepUpper(m, m', 2, x2, i2);
        }
      }
    }
  }

  /** The second-level table under slot 0 and index j of e's directory. */
  function Dir1(m: Mem, e: nat): int
    requires Sized(m)
  {
    if e in m.pgdir then Step(m, m.pgdir[e], 0) else NULL
  }

  function Dir2(m: Mem, e: nat, j: nat): int
    requires Sized(m)
  {
    Step(m, Dir1(m, e), j)
  }

  function Table(m: Mem, e: nat, j: nat, k: nat): int
    requires Sized(m)
  {
    Step(m, Dir2(m, e, j), k)
  }

  /** The page number PGADDR(0, j, k, i, 0) addresses. */
  function Slot0Page(j: nat, k: nat, i: nat): nat { j * 0x4_0000 + k * 0x200 + i }

  lemma Slot0Walk(m: Mem, e: nat, j: nat, k: nat, i: nat)
    requires Sized(m) && j < 512 && k < 512 && i < 512
    ensures PGADDR(0, j, k, i, 0) == Slot0Page(j, k, i) * PGSIZE && Slot0Page(j, k, i) < SLOT0
    ensures Leaf(m, e, PGADDR(0, j, k, i, 0)) == Table(m, e, j, k)
    ensures PTX(PGADDR(0, j, k, i, 0)) == i && PD0X(PGADDR(0, j, k, i, 0)) == 0
  {
    IndicesOfPgaddr(0, j, k, i, 0);
  }

  lemma Dir1Level(m: Mem, e: nat)
    requires Shape(m) && Dir1(m, e) != NULL
    ensures e in m.pgdir && 0 <= Dir1(m, e) < |m.frames| && m.level[Dir1(m, e)] == 1
  {
    StepLevel(m, m.pgdir[e], 0);
  }

  lemma Dir2Level(m: Mem, e: nat, j: nat)
    requires Shape(m) && j < 512 && Dir2(m, e, j) != NULL
    ensures 0 <= Dir2(m, e, j) < |m.frames| && m.level[Dir2(m, e, j)] == 2 && Dir1(m, e) != NULL
  {
    Dir1Level(m, e);
    StepLevel(m, Dir1(m, e), j);
  }

  lemma TableLevel(m: Mem, e: nat, j: nat, k: nat)
    requires Shape(m) && j < 512 && k < 512 && Table(m, e, j, k) != NULL
    ensures 0 <= Table(m, e, j, k) < |m.frames| && m.level[Table(m, e, j, k)] == 3 && Dir2(m, e, j) != NULL
  {
    Dir2Level(m, e, j);
    StepLevel(m, Dir2(m, e, j), k);
  }

  /** Unmapping entry i of a leaf table clears that entry and no other. */
  lemma EntrySwept(m: Mem, w: World, w': World, e: nat, j: nat, k: nat, i: nat, pt: nat)
    requires Good(w, NULL) && UpperKept(m, w.m, 2) && j < 512 && k < 512 && i < 512
    requires Table(w.m, e, j, k) == pt && Removed(w, w', e, PGADDR(0, j, k, i, 0))
    requires ClearBelow(w.m, pt, i)
    ensures UpperKept(m, w'.m, 2) && ClearBelow(w'.m, pt, i + 1)
  {
    Slot0Walk(w.m, e, j, k, i);
    TableLevel(w.m, e, j, k);
    assert w'.m == w.m || w'.m == SetEntry(w.m, pt, i, 0);
    forall t | 0 <= t < |m.frames| && m.level[t] <= 2
      ensures w'.m.level[t] == m.level[t] && w'.m.frames[t] == m.frames[t]
    {
      assert w.m.level[t] == m.level[t];
    }
    forall x | 0 <= x < i + 1 ensures Target(w'.m, Entry(pt, x)) == NULL {
      TargetAfterSet(w.m, pt, i, 0, Entry(pt, x));
    }
  }

  /** Sweeping the child p of slot (t, k) left the slot itself alone. */
  lemma ChildEmptied(wA: World, wB: World, t: nat, k: nat, p: nat)
    requires Good(wA, NULL) && Good(wB, NULL) && t < |wA.m.frames| && k < 512 && wA.m.level[t] < 3
    requires Target(wA.m, Entry(t, k)) == p && UpperKept(wA.m, wB.m, wA.m.level[t]) && ClearBelow(wB.m, p, NPTENTRIES)
    ensures HoldsEmpty(wB.m, t, k, p)
  {
    StepUpper(wA.m, wB.m, wA.m.level[t], t, k);
    StepLevel(wB.m, t, k);
  }

  /** After the child is dropped too, no table above t's level has changed. */
  lemma ChildDroppedUpper(m: Mem, wA: World, wB: World, wC: World, L: nat, t: nat, k: nat, p: nat)
    requires Shape(wB.m) && t < |wA.m.frames| && k < 512 && Sized(wA.m) && wA.m.level[t] == L + 1 <= 2
    requires UpperKept(m, wA.m, L) && UpperKept(wA.m, wB.m, L + 1)
    requires HoldsEmpty(wB.m, t, k, p) && Dropped(wB, wC, t, k, p)
    ensures UpperKept(m, wC.m, L)
  {
    StepLevel(wB.m, t, k);
    assert wB.m.level[t] == L + 1;
    forall u | 0 <= u < |m.frames| && m.level[u] <= L
      ensures wC.m.level[u] == m.level[u] && wC.m.frames[u] == m.frames[u]
    {
      assert wA.m.level[u] == m.level[u] && wB.m.level[u] == m.level[u];
    }
  }

  /** Slot (t, k) is clear, and so is every slot before it. */
  lemma ChildDroppedClear(wA: World, wB: World, wC: World, t: nat, k: nat, p: nat)
    requires Shape(wB.m) && Sized(wA.m) && t < |wA.m.frames| && k < 512 && wA.m.level[t] <= 2
    requires UpperKept(wA.m, wB.m, wA.m.level[t]) && ClearBelow(wA.m, t, k)
    requires HoldsEmpty(wB.m, t, k, p) && Dropped(wB, wC, t, k, p)
    ensures ClearBelow(wC.m, t, k + 1)
  {
    forall x | 0 <= x < k + 1 ensures Target(wC.m, Entry(t, x)) == NULL {
      UnlinkTargets(wB.m, t, k, p, Entry(t, x));
      StepUpper(wA.m, wB.m, wA.m.level[t], t, x);
    }
  }

  lemma Dir1Upper(m: Mem, m': Mem, e: nat)
    requires Shape(m) && UpperKept(m, m', 0)
    ensures Dir1(m', e) == Dir1(m, e)
  {
    if e in m.pgdir { StepUpper(m, m', 0, m.pgdir[e], 0); }
  }

  lemma Dir2Upper(m: Mem, m': Mem, e: nat, j: nat)
    requires Shape(m) && UpperKept(m, m', 1)
    ensures Dir1(m', e) == Dir1(m, e) && Dir2(m', e, j) == Dir2(m, e, j)
  {
    Dir1Upper(m, m', e);
    if Dir1(m, e) != NULL {
      Dir1Level(m, e);
      StepUpper(m, m', 1, Dir1(m, e), j);
    }
  }

  /* ---- the last step: the page directory itself ---- */

  /** e's page directory has been dropped and has lost its only reference. */
  ghost predicate DirectoryDropped(w: World, w': World, e: nat) {
    && Sized(w.m) && e in w.m.pgdir && w.m.pgdir[e] < |w.m.frames| == |w.pages| == |w'.pages|
    && w'.m == DropRoot(w.m, e)
    && FreeList(w'.pages, w'.head, w'.free, w'.n) && w'.free.Keys == w.free.Keys + {w.m.pgdir[e]}
    && forall q :: 0 <= q < |w'.pages| ==> w'.pages[q].ref == w.pages[q].ref - (if q == w.m.pgdir[e] then 1 else 0)
  }

  /** No owned slot of e's directory but the first is in use. */
  ghost predicate OnlySlot0(m: Mem, e: nat) {
    && Sized(m) && e in m.pgdir && m.pgdir[e] < |m.frames|
    && forall i :: 1 <= i < NPTENTRIES && Owned(i) ==> m.frames[m.pgdir[e]][i] == 0
  }

  /** Dropping the directory keeps the invariant, with the tables it still names lost. */
  lemma DirectoryDroppedGood(w: World, w': World, e: nat)
    requires Good(w, NULL) && DirectoryDropped(w, w', e)
    ensures Good(w', NULL)
  {
    DropRootShape(w.m, e);
  }

  /** A table under another slot keeps its reference, which nothing holds any more. */
  lemma LeakBreaksCount(w: World, w': World, e: nat, i: nat)
    requires Good(w, NULL) && DirectoryDropped(w, w', e)
    requires i < NPTENTRIES && Owned(i) && w.m.frames[w.m.pgdir[e]][i] != 0
    ensures var q := Target(w.m, Entry(w.m.pgdir[e], i));
            && 0 <= q < |w.pages| && q !in w.m.lost && q in w'.m.lost
            && w'.pages[q].ref == 1 && RealHolders(w'.m, q) == {}
  {
    var r := w.m.pgdir[e];
    ValidIffTarget(w.m, r, i);
    StepLevel(w.m, r, i);
    var q := Target(w.m, Entry(r, i));
    Orphaned(w.m, e, q);
    DropRootHolders(w.m, e, q);
    assert w'.pages[q].ref == w.pages[q].ref == |Holders(w.m, q)| == 1;
  }

  /** After the sweep, env_free loses nothing exactly when nothing was mapped outside slot 0. */
  lemma FreeExactIff(w: World, w': World, e: nat)
    requires Good(w, NULL) && DirectoryDropped(w, w', e) && Dir1(w.m, e) == NULL
    ensures w'.m.lost == w.m.lost <==> OnlySlot0(w.m, e)
  {
    var r := w.m.pgdir[e];
    if OnlySlot0(w.m, e) {
      forall i: nat | i < NPTENTRIES ensures Target(w.m, Entry(r, i)) == NULL {
        if i == 0 { assert Step(w.m, r, 0) == NULL; }
      }
      assert Orphans(w.m, e) == {};
    } else {
      var i :| 1 <= i < NPTENTRIES && Owned(i) && w.m.frames[r][i] != 0;
      LeakBreaksCount(w, w', e, i);
    }
  }

  lemma StackSlot()
    ensures PD0X(0xffff_fcff_f000_0000 - PGSIZE) == 505
  {}

  /** A mapping under an owned slot other than 0 is one the sweep does not reach. */
  lemma MappedOutsideSlot0(m: Mem, e: nat, va: nat)
    requires Shape(m) && Pte(m, e, va) != 0 && PD0X(va) != 0 && Owned(PD0X(va))
    ensures !OnlySlot0(m, e)
  {
    if Leaf(m, e, va) != NULL {
      var t0, t1, t2, t3 := WalkLevels(m, e, va);
      assert m.frames[m.pgdir[e]][PD0X(va)] != 0;
    }
  }

  /** Every environment that load_icode started has a stack page, and leaks its tables. */
  lemma StackDefeatsSweep(m: Mem, e: nat)
    requires Shape(m) && Pte(m, e, 0xffff_fcff_f000_0000 - PGSIZE) != 0
    ensures !OnlySlot0(m, e)
  {
    StackSlot();
    MappedOutsideSlot0(m, e, 0xffff_fcff_f000_0000 - PGSIZE);
  }

  /** What env_free does: e's directory is gone, every other environment's translations
      are kept, each data page loses exactly the slot-0 mappings e had of it, and nothing
      is lost if and only if e had nothing in its other slots. */
  ghost predicate EnvFreed(w0: World, w: World, e: nat) {
    && Sized(w0.m) && Sized(w.m) && |w.pages| == |w0.pages| == |w0.m.frames| && w.m.pgdir == w0.m.pgdir - {e}
    && (forall x: nat, a: nat :: x != e ==> Pte(w.m, x, a) == Pte(w0.m, x, a))
    && (forall p :: 0 <= p < |w.pages| && w0.m.level[p] == DATA ==>
          w.pages[p].ref == w0.pages[p].ref - |Slot0Maps(w0.m, e, p)|)
    && w0.m.lost <= w.m.lost && (w.m.lost == w0.m.lost <==> OnlySlot0(w0.m, e))
    && Conserved(w0.pages, w0.free, w.pages, w.free, NULL)
  }

  lemma NoSlot0Maps(m: Mem, e: nat, p: nat)
    requires Sized(m) && Dir1(m, e) == NULL
    ensures Slot0Maps(m, e, p) == {}
  {
    forall v: nat | v < SLOT0 ensures v !in Slot0Maps(m, e, p) {
      Slot0Vpn(v);
    }
  }

  /** The directory after the sweep: slot 0 is clear and the other slots are untouched. */
  predicate DirectorySwept(m: Mem, m': Mem, e: nat) {
    && Sized(m) && Sized(m') && e in m.pgdir && m'.pgdir == m.pgdir && m.pgdir[e] < |m.frames| == |m'.frames|
    && Dir1(m', e) == NULL
    && forall i :: 1 <= i < NPTENTRIES ==> m'.frames[m.pgdir[e]][i] == m.frames[m.pgdir[e]][i]
  }

  lemma SlotZeroCleared(wA: World, wB: World, wC: World, e: nat, p: nat)
    requires Good(wA, NULL) && e in wA.m.pgdir && Good(wB, NULL) && UpperKept(wA.m, wB.m, 0)
    requires HoldsEmpty(wB.m, wA.m.pgdir[e], 0, p) && Dropped(wB, wC, wA.m.pgdir[e], 0, p)
    ensures DirectorySwept(wA.m, wC.m, e)
  {
    UnlinkTargets(wB.m, wA.m.pgdir[e], 0, p, Entry(wA.m.pgdir[e], 0));
  }

  lemma RootConserves(w: World, w': World, e: nat)
    requires Good(w, NULL) && DirectoryDropped(w, w', e)
    ensures Conserved(w.pages, w.free, w'.pages, w'.free, NULL)
  {
    var r := w.m.pgdir[e];
    assert w.pages[r].ref == |Holders(w.m, r)| == 1;
    forall p: nat ensures InLimbo(w'.pages, w'.free, p) <==> InLimbo(w.pages, w.free, p) {
      assert p in w'.free.Keys <==> p in w.free.Keys || p == r;
    }
  }

  lemma EnvFreedAfter(w0: World, w1: World, w2: World, e: nat)
    requires Good(w0, NULL) && e in w0.m.pgdir && Swept(w0, w1, e) && DirectorySwept(w0.m, w1.m, e)
    requires DirectoryDropped(w1, w2, e)
    ensures Good(w2, NULL) && EnvFreed(w0, w2, e)
  {
    DirectoryDroppedGood(w1, w2, e);
    FreeExactIff(w1, w2, e);
    RootConserves(w1, w2, e);
    assert OnlySlot0(w1.m, e) <==> OnlySlot0(w0.m, e);
    DropRootTargets(w1.m, e, Root(e));
    forall x: nat, a: nat | x != e ensures Pte(w2.m, x, a) == Pte(w0.m, x, a) {
      PteAfterDropRoot(w1.m, e, x, a);
    }
    forall p | 0 <= p < |w2.pages| && w0.m.level[p] == DATA
      ensures w2.pages[p].ref == w0.pages[p].ref - |Slot0Maps(w0.m, e, p)|
    {
      NoSlot0Maps(w1.m, e, p);
    }
  }
}
