/** Physical pages, page tables and the system calls that map memory, in place. */
module Kernel {
  import opened Sv48
  import opened PhysMem
  import opened Translation
  import opened Pmap
  import opened Sweep

  datatype Ret = Ok | BadEnv | Inval | NoMem

  /** (perm & ~PTE_SYSCALL) == 0, where PTE_SYSCALL is 0x31f. */
  predicate PermOk(perm: int) { 0 <= perm < PTE_SYSCALL_LIMIT && perm / 32 % 8 == 0 }

  predicate AddrOk(va: nat) { va < UTOP && va % PGSIZE == 0 }

  predicate Writable(w: nat) { w / PTE_W % 2 == 1 }

  datatype Op =
    | Alloc(e: nat, va: nat, perm: int)
    | Map(se: nat, sva: nat, de: nat, dva: nat, perm: int)
    | Unmap(e: nat, va: nat)
    | Send(se: nat, sva: nat, de: nat, dva: nat, perm: int)
    | Setup(e: nat, kern: seq<nat>, self: nat)
    | Free(e: nat)

  /** The operation stays within the top-level slots environments own, and passes
      sys_page_map the permissions its interface allows. */
  predicate OwnedOp(op: Op) {
    match op
    case Alloc(_, va, _) => AddrOk(va) ==> Owned(PD0X(va))
    case Map(_, sva, _, dva, perm) =>
      PermOk(perm) && (AddrOk(sva) ==> Owned(PD0X(sva))) && (AddrOk(dva) ==> Owned(PD0X(dva)))
    case Unmap(_, va) => AddrOk(va) ==> Owned(PD0X(va))
    case Send(_, sva, _, dva, _) => sva < UTOP && Owned(PD0X(sva)) && Owned(PD0X(dva))
    case Setup(_, kern, _) => |kern| == NPTENTRIES
    case Free(_) => true
  }

  /** Inserting pp at va in e's space does not take its 16-bit count past the limit: the insert fails
      for memory, pp is there already, or the count has room. */
  ghost predicate Fits(w: World, e: nat, va: nat, pp: nat) {
    Sized(w.m) && (Gaps(w.m, e, va) <= w.n && NamedBy(Pte(w.m, e, va)) != pp ==>
          pp < |w.pages| && w.pages[pp].ref < 0xFFFF)
  }

  /** Sharing the page at sva of se at dva in de's space keeps its count within the limit. */
  ghost predicate Sharing(w: World, se: nat, sva: nat, de: nat, dva: nat, perm: int) {
    Sized(w.m) && (Shareable(w, se, sva, perm) ==> Fits(w, de, dva, FrameOf(Pte(w.m, se, sva))))
  }

  /** What sys_page_alloc does, by result: the errors change nothing, success maps the first free
      page at va alone, and memory runs out exactly when the walk lacks more tables than the other
      free pages can supply. */
  ghost predicate AllocStep(w: World, e: nat, va: nat, perm: int, r: Ret, w': World) {
    && Sized(w.m) && Sized(w'.m) && Conserved(w.pages, w.free, w'.pages, w'.free, NULL)
    && (r == BadEnv <==> e !in w.m.pgdir)
    && (r == Inval <==> e in w.m.pgdir && !(AddrOk(va) && PermOk(perm)))
    && (r == NoMem <==> e in w.m.pgdir && AddrOk(va) && PermOk(perm) && Gaps(w.m, e, va) >= w.n)
    && (r == BadEnv || r == Inval ==> w' == w)
    && (r == NoMem ==> SameMap(w.m, w'.m))
    && (r == Ok ==>
          w.head >= 0 && MapsOnly(w.m, w'.m, e, va, PteWord(w.head, perm)) && w'.n + Gaps(w.m, e, va) + 1 >= w.n)
  }

  /** The page mapped at sva in se's space may be shared with permissions perm. */
  ghost predicate Shareable(w: World, se: nat, sva: nat, perm: int)
    requires Sized(w.m)
  {
    0 <= perm && Pte(w.m, se, sva) != 0 && (Writable(perm) ==> Writable(Pte(w.m, se, sva)))
  }

  /** What sys_page_map does, by result. */
  ghost predicate MapStep(w: World, se: nat, sva: nat, de: nat, dva: nat, perm: int, r: Ret, w': World) {
    && Sized(w.m) && Sized(w'.m) && Conserved(w.pages, w.free, w'.pages, w'.free, NULL)
    && (r == BadEnv <==> se !in w.m.pgdir || de !in w.m.pgdir)
    && (r == Inval <==>
          se in w.m.pgdir && de in w.m.pgdir && !(AddrOk(sva) && AddrOk(dva) && Shareable(w, se, sva, perm)))
    && (r == NoMem <==> se in w.m.pgdir && de in w.m.pgdir && AddrOk(sva) && AddrOk(dva) && Shareable(w, se, sva, perm)
                        && Gaps(w.m, de, dva) > w.n)
    && (r == BadEnv || r == Inval ==> w' == w)
    && (r == NoMem ==> SameMap(w.m, w'.m))
    && (r == Ok ==> PermOk(perm) && MapsOnly(w.m, w'.m, de, dva, PteWord(FrameOf(Pte(w.m, se, sva)), perm)))
  }

  /** What the page half of sys_ipc_try_send does, by result. */
  ghost predicate SendStep(w: World, se: nat, sva: nat, de: nat, dva: nat, perm: int, r: Ret, w': World) {
    && Sized(w.m) && Sized(w'.m) && Conserved(w.pages, w.free, w'.pages, w'.free, NULL) && r != BadEnv
    && (r == Inval <==> !(AddrOk(sva) && PermOk(perm) && Shareable(w, se, sva, perm)))
    && (r == NoMem <==> AddrOk(sva) && PermOk(perm) && Shareable(w, se, sva, perm) && Gaps(w.m, de, dva) > w.n)
    && (r == Inval ==> w' == w)
    && (r == NoMem ==> SameMap(w.m, w'.m))
    && (r == Ok ==> PermOk(perm) && MapsOnly(w.m, w'.m, de, dva, PteWord(FrameOf(Pte(w.m, se, sva)), perm)))
  }

  /** What sys_page_unmap does, by result. */
  ghost predicate UnmapStep(w: World, e: nat, va: nat, r: Ret, w': World) {
    && Sized(w.m) && Sized(w'.m) && Conserved(w.pages, w.free, w'.pages, w'.free, NULL)
    && r == (if e !in w.m.pgdir then BadEnv else if !AddrOk(va) then Inval else Ok)
    && (if r == Ok then MapsOnly(w.m, w'.m, e, va, 0) else w' == w)
  }

  /** What env_setup_vm does, by result. */
  ghost predicate SetupStep(w: World, e: nat, r: Ret, w': World) {
    && Sized(w.m) && Sized(w'.m) && Conserved(w.pages, w.free, w'.pages, w'.free, NULL) && w'.m.lost == w.m.lost
    && r == (if w.n == 0 then NoMem else Ok)
    && (r == NoMem ==> w' == w)
    && (r == Ok ==> w'.m.pgdir.Keys == w.m.pgdir.Keys + {e} &&
                    forall x: nat, a: nat :: Pte(w'.m, x, a) == if x == e then 0 else Pte(w.m, x, a))
  }

  ghost predicate Performed(w: World, op: Op, r: Ret, w': World) {
    match op
    case Alloc(e, va, perm) => AllocStep(w, e, va, perm, r, w')
    case Map(se, sva, de, dva, perm) => MapStep(w, se, sva, de, dva, perm, r, w')
    case Unmap(e, va) => UnmapStep(w, e, va, r, w')
    case Send(se, sva, de, dva, perm) => SendStep(w, se, sva, de, dva, perm, r, w')
    case Setup(e, _, _) => SetupStep(w, e, r, w')
    case Free(e) => r == Ok && EnvFreed(w, w', e)
  }

  lemma PerformedConserves(w: World, op: Op, r: Ret, w': World)
    requires Performed(w, op, r, w')
    ensures Conserved(w.pages, w.free, w'.pages, w'.free, NULL)
  {}

  /** The source survives the operation: sys_page_alloc has a page to take, no count goes past its
      16-bit limit, the two ends of a send are there, and so is what env_free frees. */
  ghost predicate CanRun(w: World, op: Op) {
    match op
    case Alloc(e, va, perm) => e in w.m.pgdir && AddrOk(va) && PermOk(perm) ==> w.n > 0
    case Map(se, sva, de, dva, perm) =>
      se in w.m.pgdir && de in w.m.pgdir && AddrOk(sva) && AddrOk(dva) ==> Sharing(w, se, sva, de, dva, perm)
    case Unmap(_, _) => true
    case Send(se, sva, de, dva, perm) =>
      && se in w.m.pgdir && de in w.m.pgdir
      && (AddrOk(sva) && PermOk(perm) ==> Sharing(w, se, sva, de, dva, perm))
    case Setup(e, _, _) => e !in w.m.pgdir
    case Free(e) => e in w.m.pgdir
  }

  ghost predicate Stepped(w: World, op: Op, r: Ret, w': World) { CanRun(w, op) && Performed(w, op, r, w') }

  /** Each pp_ref equals the number of entries and directories that name the page, lost tables apart,
      the free list holds exactly pages nothing names, and no page has gone from both since w0. */
  ghost predicate Sound(w0: World, w: World) { Good(w, NULL) && Conserved(w0.pages, w0.free, w.pages, w.free, NULL) }

  /** The states tr that a run from w0 passes through, all sound, with the results rs of the
      operations it performed; it may not have reached the end of ops. */
  ghost predicate IsRun(w0: World, ops: seq<Op>, rs: seq<Ret>, tr: seq<World>)
    decreases |rs|
  {
    && |rs| <= |ops| && |tr| == |rs| + 1 && tr[0] == w0 && Sound(w0, tr[|rs|])
    && (|rs| > 0 ==>
          var n := |rs| - 1;
          Stepped(tr[n], ops[n], rs[n], tr[n + 1]) && IsRun(w0, ops, rs[..n], tr[..n + 1]))
  }

  lemma StateMore(w0: World, w: World, op: Op, r: Ret, w': World)
    requires Sound(w0, w) && Good(w', NULL) && Performed(w, op, r, w')
    ensures Sound(w0, w')
  {
    PerformedConserves(w, op, r, w');
  }

  lemma RunMore(w0: World, ops: seq<Op>, rs: seq<Ret>, tr: seq<World>, r: Ret, w: World)
    requires IsRun(w0, ops, rs, tr) && |rs| < |ops| && Sound(w0, w) && Stepped(tr[|rs|], ops[|rs|], r, w)
    ensures IsRun(w0, ops, rs + [r], tr + [w])
  {
    assert (rs + [r])[..|rs|] == rs && (tr + [w])[..|tr|] == tr;
  }

  lemma WalkedFits(w0: World, w1: World, e: nat, va: nat, pp: nat)
    requires Sized(w0.m) && Grown(w0, w1, NULL) && Fits(w0, e, va, pp) && pp < |w0.pages| && pp !in w0.free
    requires Gaps(w0.m, e, va) <= w0.n
    ensures NamedBy(Pte(w1.m, e, va)) != pp ==> w1.pages[pp].ref < 0xFFFF
    ensures pp < |w1.m.level| && w1.m.level[pp] == w0.m.level[pp] && pp !in w1.free
  {
    assert Pte(w1.m, e, va) == Pte(w0.m, e, va);
  }

  class Kernel {
    const pages: array<PageInfo>
    const frames: array<seq<nat>>
    var freeList: int
    var pgdir: map<nat, nat>
    ghost var level: seq<nat>
    ghost var lost: set<nat>
    ghost var free: map<nat, nat>
    ghost var nfree: nat

    ghost function M(): Mem
      reads this, frames
    {
      Mem(frames[..], level, pgdir, lost)
    }

    ghost predicate Listing()
      reads this, pages
    {
      FreeList(pages[..], freeList, free, nfree)
    }

    ghost function W(): World
      reads this, pages, frames
    {
      World(M(), pages[..], freeList, free, nfree)
    }

    ghost predicate Valid()
      reads this, pages, frames
    {
      Good(W(), NULL)
    }

    /** page_init: pages below `firm`, the AP boot page, and [ext, kend) stay reserved;
        the rest of [firm, base) and [kend, npages) goes on the free list. */
    constructor (npages: nat, firm: nat, base: nat, mpentry: nat, ext: nat, kend: nat)
      requires firm <= base <= ext <= kend <= npages <= MAXPAGES
      ensures Valid() && fresh(pages) && fresh(frames)
      ensures pgdir == map[] && lost == {} && pages.Length == npages
      ensures forall p :: p in free <==> (firm <= p < base && p != mpentry) || kend <= p < npages
      ensures nfree == base - firm - (if firm <= mpentry < base then 1 else 0) + npages - kend
    {
      pages := new PageInfo[npages](_ => PageInfo(NULL, 0));
      frames := new seq<nat>[npages](_ => ZeroPage());
      freeList := NULL;
      pgdir := map[];
      level := seq(npages, _ => DATA);
      lost := {};
      free := map[];
      nfree := 0;
      new;
      FreeRange(firm, base, mpentry);
      FreeRange(kend, npages, npages);
      NoTables(M());
    }

    /** The loops of page_init that put [lo, hi) on the free list, except page `skip`. */
    method FreeRange(lo: nat, hi: nat, skip: nat)
      requires lo <= hi <= pages.Length && Listing()
      requires forall p :: 0 <= p < pages.Length ==> pages[p].ref == 0
      requires forall p :: lo <= p < hi ==> p !in free
      modifies this`freeList, this`free, this`nfree, pages
      ensures Listing()
      ensures forall p :: 0 <= p < pages.Length ==> pages[p].ref == 0
      ensures forall p :: p in free <==> p in old(free) || (lo <= p < hi && p != skip)
      ensures nfree == old(nfree) + hi - lo - (if lo <= skip < hi then 1 else 0)
    {
      var i := lo;
      while i < hi
        invariant lo <= i <= hi && Listing()
        invariant forall p :: 0 <= p < pages.Length ==> pages[p].ref == 0
        invariant forall p :: p in free <==> p in old(free) || (lo <= p < i && p != skip)
        invariant nfree == old(nfree) + i - lo - (if lo <= skip < i then 1 else 0)
      {
        if i == skip {
          ghost var was := pages[..];
          assert UnlistedIf(was, free, i);
          pages[i] := PageInfo(NULL, 0);
          assert pages[..] == was;
        } else {
          PushHead(i);
        }
        i := i + 1;
      }
    }

    method PushHead(p: nat)
      requires Listing() && p < pages.Length && p !in free && pages[p].ref == 0
      modifies this`freeList, this`free, this`nfree, pages
      ensures Listing() && freeList == p && free == old(free)[p := old(nfree)] && nfree == old(nfree) + 1
      ensures pages[..] == old(pages[..])[p := PageInfo(old(freeList), 0)]
    {
      PushFree(pages[..], freeList, free, nfree, p);
      pages[p] := PageInfo(freeList, 0);
      freeList := p;
      free := free[p := nfree];
      nfree := nfree + 1;
    }

    /** page_alloc: takes the head of the free list, clearing the page on request. */
    method PageAlloc(zero: bool) returns (p: int)
      requires Listing() && pages.Length == frames.Length
      modifies this`freeList, this`free, this`nfree, pages, frames
      ensures Listing()
      ensures p == NULL <==> old(nfree) == 0
      ensures p == NULL ==> pages[..] == old(pages[..]) && frames[..] == old(frames[..])
      ensures p == NULL ==> freeList == old(freeList) && free == old(free) && nfree == 0
      ensures p != NULL ==> p == old(freeList) && 0 <= p < pages.Length && freeList == old(pages[p].link)
      ensures p != NULL ==> p in old(free) && free == old(free) - {p} && nfree == old(nfree) - 1
      ensures p != NULL ==> pages[..] == old(pages[..])[p := PageInfo(NULL, 0)]
      ensures p != NULL ==> frames[..] == if zero then old(frames[..])[p := ZeroPage()] else old(frames[..])
    {
      if freeList == NULL { return NULL; }
      PopFree(pages[..], freeList, free, nfree);
      assert ListedIf(pages[..], free, nfree, freeList);
      p := freeList;
      freeList := pages[p].link;
      free := free - {p};
      nfree := nfree - 1;
      pages[p] := PageInfo(NULL, pages[p].ref);
      if zero { frames[p] := ZeroPage(); }
    }

    /** page_free: neither panic can fire, since p has no references and is not listed. */
    method PageFree(p: nat)
      requires Listing() && p < pages.Length && p !in free && pages[p].ref == 0
      modifies this`freeList, this`free, this`nfree, pages
      ensures Listing() && freeList == p && free == old(free)[p := old(nfree)] && nfree == old(nfree) + 1
      ensures pages[..] == old(pages[..])[p := PageInfo(old(freeList), 0)]
    {
      assert UnlistedIf(pages[..], free, p);
      PushHead(p);
    }

    /** page_decref: one reference fewer, and the page is freed at zero. */
    method PageDecref(p: nat)
      requires Listing() && p < pages.Length && p !in free && pages[p].ref > 0
      modifies this`freeList, this`free, this`nfree, pages
      ensures Listing()
      ensures free.Keys == old(free).Keys + (if old(pages[p].ref) == 1 then {p} else {})
      ensures forall q :: 0 <= q < pages.Length ==> pages[q].ref == old(pages[q].ref) - (if q == p then 1 else 0)
      ensures nfree == old(nfree) + (if old(pages[p].ref) == 1 then 1 else 0)
    {
      SetRefKeepsFree(pages[..], freeList, free, nfree, p, pages[p].ref - 1);
      ghost var was := pages[..];
      pages[p] := pages[p].(ref := pages[p].ref - 1);
      assert pages[..] == was[p := was[p].(ref := was[p].ref - 1)];
      if pages[p].ref == 0 { PageFree(p); }
    }

    /** pp->pp_ref++ on a page that is not on the free list; the field has 16 bits. */
    method IncRef(p: nat)
      requires Listing() && p < pages.Length && p !in free && pages[p].ref < 0xFFFF
      modifies pages
      ensures Listing()
      ensures pages[..] == old(pages[..])[p := old(pages[p]).(ref := old(pages[p].ref) + 1)]
    {
      SetRefKeepsFree(pages[..], freeList, free, nfree, p, pages[p].ref + 1);
      pages[p] := pages[p].(ref := Bumped(pages[p].ref));
    }

    method WriteEntry(t: nat, i: nat, w: nat)
      requires Sized(M()) && t < frames.Length && i < NPTENTRIES
      modifies frames
      ensures M() == SetEntry(old(M()), t, i, w)
    {
      frames[t] := frames[t][i := w];
    }

    /* ---- building tables ---- */

    /** page_alloc(ALLOC_ZERO) and pp_ref++: a clear page in hand, named by nothing yet. */
    method NewTable() returns (p: int)
      requires Valid()
      modifies this`freeList, this`free, this`nfree, pages, frames
      ensures p == NULL <==> old(nfree) == 0
      ensures p == NULL ==> W() == old(W())
      ensures p != NULL ==> p == old(freeList) && 0 <= p < pages.Length == frames.Length && W() == Taken(old(W()))
    {
      if nfree > 0 { TakenInHand(W()); }
      p := PageAlloc(true);
      if p == NULL { return; }
      IncRef(p);
      assert pages[..] == old(pages[..])[p := PageInfo(NULL, 1)];
      assert M() == SetPage(old(M()), p, ZeroPage());
    }

    /** pgdir[i] = PDE_ENTRY(page2pa(p)) | PTE_V. */
    method Link(t: nat, i: nat, p: nat)
      requires Sized(M()) && t < frames.Length && i < NPTENTRIES && p < frames.Length && level[t] < 3
      modifies this`level, frames
      ensures W() == Linked(old(W()), t, i, p)
    {
      WriteEntry(t, i, PteWord(p, 0));
      level := level[p := level[t] + 1];
    }

    /** One level of pgdir_create_page_level: make sure slot (t, i) leads to a table,
        using the page in hand if it does not, and then take another page. */
    method EnsureLevel(t: nat, i: nat, p: nat, ghost w0: World, ghost w: World)
      returns (d: int, p': int, ghost w': World)
      requires w == W() && Building(w0, w, p)
      requires t < frames.Length && i < NPTENTRIES && level[t] < 2 && (level[t] == 0 ==> Owned(i))
      modifies this`freeList, this`free, this`nfree, this`level, pages, frames
      ensures w' == W() && (p' == NULL <==> Target(w.m, Entry(t, i)) == NULL && w.n == 0)
      ensures p' == NULL ==> Good(w', NULL) && Grown(w0, w', NULL) && w'.n == 0
      ensures p' != NULL ==> Building(w0, w', p') && w'.n == w.n - (if Target(w.m, Entry(t, i)) == NULL then 1 else 0)
      ensures p' != NULL ==> 0 <= d < frames.Length && level[d] == w.m.level[t] + 1 && Ensured(w.m, w'.m, t, i, d)
    {
      ValidIffTarget(w.m, t, i);
      if IsValid(frames[t][i]) {
        d, p', w' := FrameOf(frames[t][i]), p, w;
        StepLevel(w.m, t, i);
        return;
      }
      d, p', w' := ExtendLevel(t, i, p, w0, w);
    }

    /** The page in hand becomes the table under slot (t, i), and another is taken. */
    method ExtendLevel(t: nat, i: nat, p: nat, ghost w0: World, ghost w: World)
      returns (d: int, p': int, ghost w': World)
      requires w == W() && Building(w0, w, p) && Linkable(w, t, i)
      modifies this`freeList, this`free, this`nfree, this`level, pages, frames
      ensures w' == W() && (p' == NULL <==> w.n == 0)
      ensures p' == NULL ==> Good(w', NULL) && Grown(w0, w', NULL) && w'.n == 0
      ensures p' != NULL ==> Building(w0, w', p') && w'.n == w.n - 1
      ensures p' != NULL ==> 0 <= d < frames.Length && level[d] == w.m.level[t] + 1 && FreshChild(w.m, w'.m, t, i, d)
    {
      NextLevel(w0, w, t, i, p);
      Link(t, i, p);
      p' := NewTable();
      w' := W();
      if p' == NULL { return NULL, NULL, w'; }
      assert w' == Taken(Linked(w, t, i, p));
      d := FrameOf(frames[t][i]);
      assert d == Target(w'.m, Entry(t, i));
    }

    /** pgdir_walk_through: the leaf table for va, if all three upper levels exist. */
    method WalkThrough(e: nat, va: nat) returns (t: int)
      requires Valid() && e in pgdir && Owned(PD0X(va))
      ensures t == Leaf(M(), e, va)
    {
      ghost var m := M();
      var d := pgdir[e];
      ValidIffTarget(m, d, PD0X(va));
      if !IsValid(frames[d][PD0X(va)]) { return NULL; }
      StepLevel(m, d, PD0X(va));
      d := FrameOf(frames[d][PD0X(va)]);
      ValidIffTarget(m, d, PD1X(va));
      if !IsValid(frames[d][PD1X(va)]) { return NULL; }
      StepLevel(m, d, PD1X(va));
      d := FrameOf(frames[d][PD1X(va)]);
      ValidIffTarget(m, d, PD2X(va));
      if !IsValid(frames[d][PD2X(va)]) { return NULL; }
      t := FrameOf(frames[d][PD2X(va)]);
    }

    /** pgdir_create_page_level: when the pages run out, the tables built so far stay
        linked, one reference each, and no translation has changed. */
    method CreateLevels(e: nat, va: nat) returns (t: int)
      requires Valid() && e in pgdir && Owned(PD0X(va)) && Leaf(M(), e, va) == NULL
      modifies this`freeList, this`free, this`nfree, this`level, pages, frames
      ensures Valid() && Grown(old(W()), W(), NULL)
      ensures t == NULL ==> nfree == 0
      ensures t == NULL <==> old(nfree) < old(Gaps(M(), e, va))
      ensures t != NULL ==> t == Leaf(M(), e, va) && nfree + old(Gaps(M(), e, va)) == old(nfree)
    {
      ghost var w0 := W();
      GrownRefl(w0);
      var p := NewTable();
      if p == NULL { return NULL; }
      TakenInHand(w0);
      TakenGrown(w0, w0);
      ghost var w := W();
      SameTargetsSameGaps(w0.m, w.m, e, va);
      t := BuildPath(e, va, p, w0, w);
    }

    /** The three levels in turn, with the page in hand. */
    method BuildPath(e: nat, va: nat, p0: nat, ghost w0: World, ghost w: World) returns (t: int)
      requires w == W() && Building(w0, w, p0)
      requires e in pgdir && Owned(PD0X(va)) && Leaf(w.m, e, va) == NULL
      modifies this`freeList, this`free, this`nfree, this`level, pages, frames
      ensures Valid() && Grown(w0, W(), NULL)
      ensures t == NULL ==> nfree == 0
      ensures t == NULL <==> w.n + 1 < Gaps(w.m, e, va)
      ensures t != NULL ==> t == Leaf(M(), e, va) && nfree + Gaps(w.m, e, va) == w.n + 1
    {
      var d1, p;
      ghost var w1;
      d1, p, w1 := EnsureLevel(pgdir[e], PD0X(va), p0, w0, w);
      if p == NULL {
        TopGap(w.m, e, va);
        return NULL;
      }
      GapsSplit(w.m, w1.m, e, va, d1);
      t := BuildLower(e, va, d1, p, w0, w.m, w1);
    }

    /** The two lower levels, under d1. */
    method BuildLower(e: nat, va: nat, d1: nat, p: nat, ghost w0: World, ghost m0: Mem, ghost w1: World)
      returns (t: int)
      requires w1 == W() && Building(w0, w1, p) && d1 < frames.Length && m0.pgdir == pgdir
      requires Shape(m0) && e in m0.pgdir && Leaf(m0, e, va) == NULL && Ensured(m0, w1.m, m0.pgdir[e], PD0X(va), d1)
      requires level[d1] == m0.level[m0.pgdir[e]] + 1
      modifies this`freeList, this`free, this`nfree, this`level, pages, frames
      ensures Valid() && Grown(w0, W(), NULL)
      ensures t == NULL ==> nfree == 0
      ensures t == NULL <==> Target(w1.m, Entry(d1, PD1X(va))) == NULL && w1.n == 0
      ensures t != NULL ==> t == Leaf(M(), e, va)
      ensures t != NULL ==> nfree == w1.n - (if Target(w1.m, Entry(d1, PD1X(va))) == NULL then 1 else 0)
    {
      var d2, p';
      ghost var w2;
      d2, p', w2 := EnsureLevel(d1, PD1X(va), p, w0, w1);
      if p' == NULL { return NULL; }
      ThirdSlotMissing(m0, w1.m, w2.m, e, va, d1, d2);
      t := LinkLeaf(e, va, d1, d2, p', w0, w2);
    }

    /** The last level of pgdir_create_page_level. */
    method LinkLeaf(e: nat, va: nat, ghost d1: nat, d2: nat, p: nat, ghost w0: World, ghost w: World) returns (t: int)
      requires w == W() && Building(w0, w, p) && e in pgdir && d2 < frames.Length && level[d2] == 2
      requires Target(w.m, Entry(pgdir[e], PD0X(va))) == d1 && Target(w.m, Entry(d1, PD1X(va))) == d2
      requires Target(w.m, Entry(d2, PD2X(va))) == NULL
      modifies this`level, frames
      ensures Valid() && Grown(w0, W(), NULL) && t == Leaf(M(), e, va) && t != NULL && nfree == w.n
    {
      ValidIffTarget(w.m, d2, PD2X(va));
      LastLevel(w0, w, e, va, d1, d2, p);
      if !IsValid(frames[d2][PD2X(va)]) {
        Link(d2, PD2X(va), p);
      }
      t := FrameOf(frames[d2][PD2X(va)]);
    }

    /** pgdir_walk: never changes a translation, whatever it has to build. */
    method PgdirWalk(e: nat, va: nat, create: bool) returns (t: int)
      requires Valid() && e in pgdir && Owned(PD0X(va))
      modifies this`freeList, this`free, this`nfree, this`level, pages, frames
      ensures Valid() && Grown(old(W()), W(), NULL)
      ensures !create || old(Leaf(M(), e, va)) != NULL ==> W() == old(W()) && t == Leaf(M(), e, va)
      ensures t != NULL ==> t == Leaf(M(), e, va)
      ensures create && t == NULL ==> nfree == 0
      ensures create ==> (t == NULL <==> old(nfree) < old(Gaps(M(), e, va)))
      ensures create && t != NULL ==> nfree + old(Gaps(M(), e, va)) == old(nfree)
    {
      GrownRefl(W());
      t := WalkThrough(e, va);
      if t == NULL && create {
        t := CreateLevels(e, va);
      }
    }

    /* ---- mapping and unmapping ---- */

    /** page_lookup: the page mapped at va and its leaf table, or NULL. */
    method PageLookup(e: nat, va: nat) returns (pp: int, t: int)
      requires Valid() && e in pgdir && Owned(PD0X(va))
      ensures pp == NamedBy(Pte(M(), e, va))
      ensures pp != NULL ==> t == Leaf(M(), e, va) != NULL
    {
      t := WalkThrough(e, va);
      if t == NULL { return NULL, NULL; }
      LeafIsTable(M(), e, va);
      if frames[t][PTX(va)] == 0 { return NULL, NULL; }
      pp := FrameOf(frames[t][PTX(va)]);
    }

    /** page_remove: deletes the mapping at va alone; the page loses that reference
        and is freed with its last one. */
    method PageRemove(e: nat, va: nat)
      requires Valid() && e in pgdir && Owned(PD0X(va))
      modifies this`freeList, this`free, this`nfree, pages, frames
      ensures Valid() && Removed(old(W()), W(), e, va) && nfree >= old(nfree)
    {
      ghost var w := W();
      var pp, t := PageLookup(e, va);
      if pp == NULL {
        UnmappedMapsOnly(w.m, e, va);
        return;
      }
      RemoveMapped(e, va, t, pp, w);
    }

    method RemoveMapped(e: nat, va: nat, t: nat, pp: nat, ghost w: World)
      requires w == W() && Good(w, NULL) && Pte(w.m, e, va) != 0 && t == Leaf(w.m, e, va)
      requires pp == FrameOf(Pte(w.m, e, va))
      modifies this`freeList, this`free, this`nfree, pages, frames
      ensures Valid() && Removed(w, W(), e, va) && nfree >= w.n
    {
      MappedPage(w, e, va);
      PageDecref(pp);
      WriteEntry(t, PTX(va), 0);
      RemovedDone(w, W(), e, va, t, pp);
    }

    /** pp->pp_ref++ and *p_pte = PTE_ENTRY(page2pa(pp)) | perm | PTE_V at a clear entry. */
    method MapIn(e: nat, va: nat, t: nat, pp: nat, perm: nat)
      requires Valid() && t == Leaf(M(), e, va) && Pte(M(), e, va) == 0 && perm < PTE_SYSCALL_LIMIT
      requires pp < pages.Length && level[pp] == DATA && pp !in free && pages[pp].ref < 0xFFFF
      modifies pages, frames
      ensures Valid() && Inserted(old(W()), W(), e, va, pp, perm)
    {
      ghost var w := W();
      LeafIsTable(w.m, e, va);
      IncRef(pp);
      ghost var w1 := W();
      assert w1 == w.(pages := w.pages[pp := w.pages[pp].(ref := w.pages[pp].ref + 1)]);
      WriteEntry(t, PTX(va), PteWord(pp, perm));
      assert W() == w1.(m := SetEntry(w.m, t, PTX(va), PteWord(pp, perm)));
      MapInKeeps(w, e, va, pp, perm);
    }

    method RemoveThenMap(e: nat, va: nat, t: nat, pp: nat, perm: nat, ghost w: World)
      requires w == W() && Good(w, NULL) && e in pgdir && Owned(PD0X(va)) && perm < PTE_SYSCALL_LIMIT
      requires t == Leaf(w.m, e, va) && Pte(w.m, e, va) != 0 && FrameOf(Pte(w.m, e, va)) != pp
      requires pp < pages.Length && level[pp] == DATA && pp !in free && pages[pp].ref < 0xFFFF
      modifies this`freeList, this`free, this`nfree, pages, frames
      ensures Valid() && Inserted(w, W(), e, va, pp, perm) && nfree >= w.n
    {
      PageRemove(e, va);
      ghost var w1 := W();
      RemovedReady(w, w1, e, va, pp);
      MapIn(e, va, t, pp, perm);
      RemovedThenInserted(w, w1, W(), e, va, pp, perm);
    }

    /** The branch of page_insert for an entry that is already in use. */
    method Replace(e: nat, va: nat, t: nat, pp: nat, perm: nat)
      requires Valid() && e in pgdir && Owned(PD0X(va)) && perm < PTE_SYSCALL_LIMIT
      requires t == Leaf(M(), e, va) && Pte(M(), e, va) != 0
      requires pp < pages.Length && level[pp] == DATA && pp !in free
      requires FrameOf(Pte(M(), e, va)) != pp ==> pages[pp].ref < 0xFFFF
      modifies this`freeList, this`free, this`nfree, pages, frames
      ensures Valid() && Inserted(old(W()), W(), e, va, pp, perm) && nfree >= old(nfree)
    {
      ghost var w := W();
      MappedPage(w, e, va);
      SamePpnIffSameFrame(FrameOf(frames[t][PTX(va)]), frames[t][PTX(va)] % 1024, pp);
      if PpnField(frames[t][PTX(va)]) != PTE_ENTRY(Page2Pa(pp)) {
        RemoveThenMap(e, va, t, pp, perm, w);
      } else {
        RemapKeeps(w, e, va, perm);
        WriteEntry(t, PTX(va), PteWord(pp, perm));
      }
    }

    /** page_insert: on success va maps to pp with perm | PTE_V and every other
        translation of every environment is as before; on failure all are. */
    method PageInsert(e: nat, pp: nat, va: nat, perm: nat) returns (ok: bool)
      requires Valid() && e in pgdir && Owned(PD0X(va)) && perm < PTE_SYSCALL_LIMIT
      requires pp < pages.Length && level[pp] == DATA && pp !in free && Fits(W(), e, va, pp)
      modifies this`freeList, this`free, this`nfree, this`level, pages, frames
      ensures Valid()
      ensures ok ==> Inserted(old(W()), W(), e, va, pp, perm)
      ensures !ok ==> Grown(old(W()), W(), NULL) && nfree == 0
      ensures ok <==> old(Gaps(M(), e, va)) <= old(nfree)
      ensures ok ==> nfree + old(Gaps(M(), e, va)) >= old(nfree)
    {
      ghost var w0 := W();
      var t := PgdirWalk(e, va, true);
      if t == NULL { return false; }
      ghost var w1 := W();
      WalkedFits(w0, w1, e, va, pp);
      InsertAt(e, va, t, pp, perm, w1);
      GrownThenInserted(w0, w1, W(), e, va, pp, perm);
      return true;
    }

    /** page_insert once the walk has found the leaf table. */
    method InsertAt(e: nat, va: nat, t: nat, pp: nat, perm: nat, ghost w: World)
      requires w == W() && Good(w, NULL) && e in pgdir && Owned(PD0X(va)) && perm < PTE_SYSCALL_LIMIT
      requires t == Leaf(w.m, e, va) && pp < pages.Length && level[pp] == DATA && pp !in free
      requires NamedBy(Pte(w.m, e, va)) != pp ==> pages[pp].ref < 0xFFFF
      modifies this`freeList, this`free, this`nfree, pages, frames
      ensures Valid() && Inserted(w, W(), e, va, pp, perm) && nfree >= w.n
    {
      LeafIsTable(w.m, e, va);
      if frames[t][PTX(va)] != 0 {
        Replace(e, va, t, pp, perm);
      } else {
        MapIn(e, va, t, pp, perm);
      }
      MappedNotHead(W(), e, va, pp, perm);
      if pp == freeList {
        assert false;
      }
    }

    /* ---- system calls ---- */

    /** sys_page_alloc; the caller sees that memory is not exhausted, since the source
        dereferences the result of page_alloc unchecked. */
    method SysPageAlloc(e: nat, va: nat, perm: int) returns (r: Ret)
      requires Valid() && CanRun(W(), Alloc(e, va, perm)) && (AddrOk(va) ==> Owned(PD0X(va)))
      modifies this`freeList, this`free, this`nfree, this`level, pages, frames
      ensures Valid() && AllocStep(old(W()), e, va, perm, r, W())
    {
      if e !in pgdir { return BadEnv; }
      if !AddrOk(va) { return Inval; }
      if !PermOk(perm) { return Inval; }
      r := AllocAt(e, va, perm, W());
    }

    /** sys_page_alloc past its checks. */
    method AllocAt(e: nat, va: nat, perm: nat, ghost w0: World) returns (r: Ret)
      requires w0 == W() && Good(w0, NULL) && e in pgdir && Owned(PD0X(va)) && PermOk(perm) && w0.n > 0
      modifies this`freeList, this`free, this`nfree, this`level, pages, frames
      ensures Valid() && Conserved(w0.pages, w0.free, pages[..], free, NULL) && (r == Ok || r == NoMem)
      ensures r == NoMem <==> Gaps(w0.m, e, va) >= w0.n
      ensures r == NoMem ==> SameMap(w0.m, M())
      ensures r == Ok ==> w0.head >= 0 && MapsOnly(w0.m, M(), e, va, PteWord(w0.head, perm))
      ensures r == Ok ==> nfree + Gaps(w0.m, e, va) + 1 >= w0.n
    {
      AllocatedGaps(w0, e, va);
      var pp := ClearPage();
      var ok := PageInsert(e, pp, va, perm);
      if !ok {
        PutBack(pp, w0);
        return NoMem;
      }
      AllocInserted(w0, W(), e, va, perm);
      return Ok;
    }

    /** page_free of the page that could not be mapped. */
    method PutBack(pp: nat, ghost w0: World)
      requires Good(w0, NULL) && w0.n > 0 && w0.head == pp < |w0.pages| && Valid() && Grown(Allocated(w0), W(), NULL)
      modifies this`freeList, this`free, this`nfree, pages
      ensures Valid() && SameMap(w0.m, M()) && Conserved(w0.pages, w0.free, pages[..], free, NULL)
    {
      ghost var w2 := W();
      AllocUndone(w0, w2);
      PageFree(pp);
      assert W() == Freed(w2, pp);
    }

    /** page_alloc(ALLOC_ZERO) where a page is known to be free. */
    method ClearPage() returns (p: int)
      requires Valid() && nfree > 0
      modifies this`freeList, this`free, this`nfree, pages, frames
      ensures p == old(freeList) && 0 <= p < pages.Length == frames.Length && W() == Allocated(old(W()))
      ensures Valid() && level[p] == DATA && p !in free && pages[p].ref == 0
    {
      AllocatedGood(W());
      p := PageAlloc(true);
      assert M() == SetPage(old(M()), p, ZeroPage());
    }

    /** sys_page_map; perm is within PTE_SYSCALL, which the source does not check. */
    method SysPageMap(se: nat, sva: nat, de: nat, dva: nat, perm: nat) returns (r: Ret)
      requires Valid() && PermOk(perm) && CanRun(W(), Map(se, sva, de, dva, perm))
      requires (AddrOk(sva) ==> Owned(PD0X(sva))) && (AddrOk(dva) ==> Owned(PD0X(dva)))
      modifies this`freeList, this`free, this`nfree, this`level, pages, frames
      ensures Valid() && MapStep(old(W()), se, sva, de, dva, perm, r, W())
    {
      if se !in pgdir { return BadEnv; }
      if de !in pgdir { return BadEnv; }
      if !AddrOk(sva) { return Inval; }
      if !AddrOk(dva) { return Inval; }
      r := SharePage(se, sva, de, dva, perm);
    }

    /** The part sys_page_map and sys_ipc_try_send have in common: look the page up, check the
        write permission, insert. */
    method SharePage(se: nat, sva: nat, de: nat, dva: nat, perm: nat) returns (r: Ret)
      requires Valid() && PermOk(perm) && se in pgdir && de in pgdir && Sharing(W(), se, sva, de, dva, perm)
      requires Owned(PD0X(sva)) && Owned(PD0X(dva))
      modifies this`freeList, this`free, this`nfree, this`level, pages, frames
      ensures Valid() && r != BadEnv && Conserved(old(pages[..]), old(free), pages[..], free, NULL)
      ensures r == Inval <==> !old(Shareable(W(), se, sva, perm))
      ensures r == NoMem <==> old(Shareable(W(), se, sva, perm)) && old(Gaps(M(), de, dva)) > old(nfree)
      ensures r == Inval ==> W() == old(W())
      ensures r == NoMem ==> SameMap(old(M()), M())
      ensures r == Ok ==> MapsOnly(old(M()), M(), de, dva, PteWord(FrameOf(old(Pte(M(), se, sva))), perm))
    {
      var pp, t := PageLookup(se, sva);
      if pp == NULL { return Inval; }
      ghost var w := W();
      MappedPage(w, se, sva);
      if Writable(perm) && !Writable(frames[t][PTX(sva)]) { return Inval; }
      var ok := PageInsert(de, pp, dva, perm);
      r := if ok then Ok else NoMem;
    }

    /** The page transfer of sys_ipc_try_send: srcva is below UTOP, and dstva is the
        aligned address the receiver recorded. */
    method SendPage(se: nat, sva: nat, de: nat, dva: nat, perm: int) returns (r: Ret)
      requires Valid() && CanRun(W(), Send(se, sva, de, dva, perm)) && sva < UTOP
      requires Owned(PD0X(sva)) && Owned(PD0X(dva))
      modifies this`freeList, this`free, this`nfree, this`level, pages, frames
      ensures Valid() && SendStep(old(W()), se, sva, de, dva, perm, r, W())
    {
      if sva % PGSIZE != 0 { return Inval; }
      if !PermOk(perm) { return Inval; }
      r := SharePage(se, sva, de, dva, perm);
    }

    /** sys_page_unmap. */
    method SysPageUnmap(e: nat, va: nat) returns (r: Ret)
      requires Valid() && (AddrOk(va) ==> Owned(PD0X(va)))
      modifies this`freeList, this`free, this`nfree, pages, frames
      ensures Valid() && UnmapStep(old(W()), e, va, r, W())
    {
      if e !in pgdir { return BadEnv; }
      if !AddrOk(va) { return Inval; }
      ghost var w := W();
      PageRemove(e, va);
      RemovedConserves(w, W(), e, va);
      return Ok;
    }

    /* ---- env_free ---- */

    /** The innermost loop of env_free: unmap every entry of one leaf table. */
    method SweepTable(e: nat, j: nat, k: nat, pt: nat, ghost w0: World)
      requires Swept(w0, W(), e) && e in pgdir && j < 512 && k < 512 && Table(M(), e, j, k) == pt
      modifies this`freeList, this`free, this`nfree, pages, frames
      ensures Swept(w0, W(), e) && UpperKept(old(M()), M(), 2) && pt < frames.Length
      ensures ClearBelow(M(), pt, NPTENTRIES)
    {
      ghost var m := M();
      TableLevel(m, e, j, k);
      var i := 0;
      while i < NPTENTRIES
        invariant 0 <= i <= NPTENTRIES && Swept(w0, W(), e) && UpperKept(m, M(), 2) && Table(M(), e, j, k) == pt
        invariant ClearBelow(M(), pt, i)
      {
        SweepEntry(e, j, k, i, pt, w0, m);
        i := i + 1;
      }
    }

    method SweepEntry(e: nat, j: nat, k: nat, i: nat, pt: nat, ghost w0: World, ghost m: Mem)
      requires Swept(w0, W(), e) && e in pgdir && j < 512 && k < 512 && i < 512 && Table(M(), e, j, k) == pt
      requires Shape(m) && UpperKept(m, M(), 2) && ClearBelow(M(), pt, i)
      modifies this`freeList, this`free, this`nfree, pages, frames
      ensures Swept(w0, W(), e) && UpperKept(m, M(), 2) && Table(M(), e, j, k) == pt && ClearBelow(M(), pt, i + 1)
    {
      ghost var w := W();
      var va := PGADDR(0, j, k, i, 0);
      Slot0Walk(M(), e, j, k, i);
      TableLevel(M(), e, j, k);
      ValidIffTarget(M(), pt, i);
      if IsValid(frames[pt][i]) {
        PageRemove(e, va);
        SweptRemove(w0, w, W(), e, Slot0Page(j, k, i));
        EntrySwept(m, w, W(), e, j, k, i, pt);
        LeafUpper(m, w.m, e, va);
        LeafUpper(m, M(), e, va);
        Slot0Walk(M(), e, j, k, i);
      }
    }

    /** An empty table p leaves slot (t, i): the entry is cleared, then page_decref. */
    method Unlink(t: nat, i: nat, p: nat)
      requires Valid() && HoldsEmpty(M(), t, i, p)
      modifies this`freeList, this`free, this`nfree, this`level, pages, frames
      ensures Dropped(old(W()), W(), t, i, p)
    {
      ghost var w := W();
      StepLevel(w.m, t, i);
      HeldHasRef(w, NULL, Entry(t, i), p);
      ghost var m' := UnlinkTable(w.m, t, i, p);
      WriteEntry(t, i, 0);
      level := level[p := DATA];
      assert M() == m';
      PageDecref(p);
      assert M() == m';
    }

    /** The middle loop: empty and release every leaf table under one level-2 table. */
    method SweepDir2(e: nat, j: nat, pd2: nat, ghost w0: World)
      requires Swept(w0, W(), e) && e in pgdir && j < 512 && Dir2(M(), e, j) == pd2
      modifies this`freeList, this`free, this`nfree, this`level, pages, frames
      ensures Swept(w0, W(), e) && UpperKept(old(M()), M(), 1) && ClearBelow(M(), pd2, NPTENTRIES)
    {
      ghost var m := M();
      Dir2Level(m, e, j);
      var k := 0;
      while k < NPTENTRIES
        invariant 0 <= k <= NPTENTRIES && Swept(w0, W(), e) && UpperKept(m, M(), 1)
        invariant ClearBelow(M(), pd2, k)
      {
        Dir2Upper(m, M(), e, j);
        Dir2Level(M(), e, j);
        ValidIffTarget(M(), pd2, k);
        if IsValid(frames[pd2][k]) {
          ghost var wA := W();
          var pt := FrameOf(frames[pd2][k]);
          SweepTable(e, j, k, pt, w0);
          ghost var wB := W();
          ChildEmptied(wA, wB, pd2, k, pt);
          Unlink(pd2, k, pt);
          SweptDrop(w0, wB, W(), e, pd2, k, pt);
          ChildDroppedUpper(m, wA, wB, W(), 1, pd2, k, pt);
          ChildDroppedClear(wA, wB, W(), pd2, k, pt);
        }
        k := k + 1;
      }
    }

    /** The outer loop: the same one level up, under the level-1 table. */
    method SweepDir1(e: nat, pd1: nat, ghost w0: World)
      requires Swept(w0, W(), e) && e in pgdir && Dir1(M(), e) == pd1
      modifies this`freeList, this`free, this`nfree, this`level, pages, frames
      ensures Swept(w0, W(), e) && UpperKept(old(M()), M(), 0) && ClearBelow(M(), pd1, NPTENTRIES)
    {
      ghost var m := M();
      Dir1Level(m, e);
      var j := 0;
      while j < NPTENTRIES
        invariant 0 <= j <= NPTENTRIES && Swept(w0, W(), e) && UpperKept(m, M(), 0)
        invariant ClearBelow(M(), pd1, j)
      {
        Dir1Upper(m, M(), e);
        Dir1Level(M(), e);
        ValidIffTarget(M(), pd1, j);
        if IsValid(frames[pd1][j]) {
          ghost var wA := W();
          var pd2 := FrameOf(frames[pd1][j]);
          SweepDir2(e, j, pd2, w0);
          ghost var wB := W();
          ChildEmptied(wA, wB, pd1, j, pd2);
          Unlink(pd1, j, pd2);
          SweptDrop(w0, wB, W(), e, pd1, j, pd2);
          ChildDroppedUpper(m, wA, wB, W(), 0, pd1, j, pd2);
          ChildDroppedClear(wA, wB, W(), pd1, j, pd2);
        }
        j := j + 1;
      }
    }

    /** The sweep of top-level slot 0. */
    method SweepSlot0(e: nat)
      requires Valid() && e in pgdir
      modifies this`freeList, this`free, this`nfree, this`level, pages, frames
      ensures Swept(old(W()), W(), e) && DirectorySwept(old(M()), M(), e)
    {
      ghost var w0 := W();
      SweptRefl(w0, e);
      var root := pgdir[e];
      ValidIffTarget(M(), root, 0);
      if IsValid(frames[root][0]) {
        var pd1 := FrameOf(frames[root][0]);
        SweepDir1(e, pd1, w0);
        ghost var wB := W();
        ChildEmptied(w0, wB, root, 0, pd1);
        Unlink(root, 0, pd1);
        SweptDrop(w0, wB, W(), e, root, 0, pd1);
        SlotZeroCleared(w0, wB, W(), e, pd1);
      }
    }

    /** env_free: only slot 0 is swept, so nothing is lost if and only if the
        environment had nothing in its other slots. */
    method EnvFree(e: nat)
      requires Valid() && e in pgdir
      modifies this`freeList, this`free, this`nfree, this`level, this`pgdir, this`lost, pages, frames
      ensures Valid() && EnvFreed(old(W()), W(), e)
    {
      ghost var w0 := W();
      SweepSlot0(e);
      ghost var w1 := W();
      DropDirectory(e, w1);
      EnvFreedAfter(w0, w1, W(), e);
    }

    /** The directory goes, and what it still names is lost. */
    method DropDirectory(e: nat, ghost w: World)
      requires w == W() && Good(w, NULL) && e in pgdir
      modifies this`freeList, this`free, this`nfree, this`level, this`pgdir, this`lost, pages
      ensures DirectoryDropped(w, W(), e)
    {
      var root := pgdir[e];
      HeldHasRef(w, NULL, Root(e), root);
      assert w.pages[root].ref == |Holders(w.m, root)| == 1;
      lost := lost + Orphans(w.m, e);
      pgdir := pgdir - {e};
      level := level[root := DATA];
      PageDecref(root);
      assert M() == DropRoot(w.m, e);
    }

    /** env_setup_vm: a page directory that is clear in every owned slot.  `kern` is
        kern_pgdir and `self` the word stored at UVPT. */
    method EnvSetupVm(e: nat, kern: seq<nat>, self: nat) returns (r: Ret)
      requires Valid() && e !in pgdir && |kern| == NPTENTRIES
      modifies this`freeList, this`free, this`nfree, this`level, this`pgdir, pages, frames
      ensures Valid() && r in {Ok, NoMem} && Conserved(old(pages[..]), old(free), pages[..], free, NULL)
      ensures r == NoMem ==> W() == old(W())
      ensures (r == NoMem <==> old(nfree) == 0) && (r == Ok ==> nfree == old(nfree) - 1)
      ensures r == Ok ==> pgdir.Keys == old(pgdir).Keys + {e} && forall x: nat, a: nat ::
                Pte(M(), x, a) == if x == e then 0 else old(Pte(M(), x, a))
    {
      ghost var w0 := W();
      var p := NewTable();
      if p == NULL { return NoMem; }
      TakenInHand(w0);
      GrownRefl(w0);
      TakenGrown(w0, w0);
      ghost var w1 := W();
      assert SameMap(w0.m, w1.m) && Conserved(w0.pages, w0.free, w1.pages, w1.free, NULL);
      AdoptRoot(e, p, kern, self, w1);
      return Ok;
    }

    /** The page in hand becomes the directory of e. */
    method AdoptRoot(e: nat, p: nat, kern: seq<nat>, self: nat, ghost w: World)
      requires w == W() && InHand(w, p) && e !in pgdir && |kern| == NPTENTRIES
      modifies this`level, this`pgdir, frames
      ensures Valid() && pgdir == old(pgdir)[e := p] && pages[..] == w.pages && free == w.free && nfree == w.n
      ensures forall x: nat, a: nat :: Pte(M(), x, a) == if x == e then 0 else Pte(w.m, x, a)
    {
      FillDirectory(p, kern, self);
      pgdir := pgdir[e := p];
      level := level[p := 0];
      assert W() == Rooted(w, e, p, frames[p]);
      RootedGood(w, e, p, frames[p]);
    }

    /** The kernel's slots are copied and the self map is set; owned slots are untouched. */
    method FillDirectory(p: nat, kern: seq<nat>, self: nat)
      requires p < frames.Length && |frames[p]| == NPTENTRIES == |kern|
      modifies frames
      ensures |frames[p]| == NPTENTRIES && frames[..] == old(frames[..])[p := frames[p]]
      ensures forall i :: 0 <= i < NPTENTRIES ==>
                frames[p][i] == if Owned(i) then old(frames[p][i]) else if i == UVPT_SLOT then self else kern[i]
    {
      frames[p] := frames[p][UPAGES_SLOT := kern[UPAGES_SLOT]];
      frames[p] := frames[p][UENVS_SLOT := kern[UENVS_SLOT]];
      frames[p] := frames[p][MMIO_SLOT := kern[MMIO_SLOT]];
      frames[p] := frames[p][KERN_SLOT := kern[KERN_SLOT]];
      frames[p] := frames[p][UVPT_SLOT := self];
    }

    /* ---- runs ---- */

    /** One operation of a run; it is performed exactly when the source would survive it. */
    method Perform(op: Op) returns (ran: bool, r: Ret)
      requires Valid() && OwnedOp(op)
      modifies this`freeList, this`free, this`nfree, this`level, this`pgdir, this`lost, pages, frames
      ensures Valid() && (ran <==> CanRun(old(W()), op))
      ensures if ran then Performed(old(W()), op, r, W()) else W() == old(W())
    {
      r := Ok;
      ran := Survives(op);
      if !ran { return; }
      match op {
        case Alloc(e, va, perm) => r := SysPageAlloc(e, va, perm);
        case Map(se, sva, de, dva, perm) => r := SysPageMap(se, sva, de, dva, perm);
        case Unmap(e, va) => r := SysPageUnmap(e, va);
        case Send(se, sva, de, dva, perm) => r := SendPage(se, sva, de, dva, perm);
        case Setup(e, kern, self) => r := EnvSetupVm(e, kern, self);
        case Free(e) => EnvFree(e);
      }
    }

    method Survives(op: Op) returns (ok: bool)
      requires Valid() && OwnedOp(op)
      ensures ok <==> CanRun(W(), op)
    {
      ok := true;
      match op {
        case Alloc(e, va, perm) => ok := !(e in pgdir && AddrOk(va) && PermOk(perm)) || freeList != NULL;
        case Map(se, sva, de, dva, perm) =>
          if se in pgdir && de in pgdir && AddrOk(sva) && AddrOk(dva) { ok := HasRoom(se, sva, de, dva, perm); }
        case Unmap(_, _) =>
        case Send(se, sva, de, dva, perm) =>
          ok := se in pgdir && de in pgdir;
          if ok && AddrOk(sva) && PermOk(perm) { ok := HasRoom(se, sva, de, dva, perm); }
        case Setup(e, _, _) => ok := e !in pgdir;
        case Free(e) => ok := e in pgdir;
      }
    }

    method HasRoom(se: nat, sva: nat, de: nat, dva: nat, perm: int) returns (ok: bool)
      requires Valid() && se in pgdir && de in pgdir && Owned(PD0X(sva)) && Owned(PD0X(dva))
      ensures ok <==> Sharing(W(), se, sva, de, dva, perm)
    {
      var pp, t := PageLookup(se, sva);
      if perm < 0 || pp == NULL { return true; }
      MappedPage(W(), se, sva);
      if Writable(perm) && !Writable(frames[t][PTX(sva)]) { return true; }
      ok := TakesOneMore(de, dva, pp);
    }

    method TakesOneMore(e: nat, va: nat, pp: nat) returns (ok: bool)
      requires Valid() && e in pgdir && Owned(PD0X(va)) && pp < pages.Length
      ensures ok <==> Fits(W(), e, va, pp)
    {
      if pages[pp].ref < 0xFFFF { return true; }
      var q, _ := PageLookup(e, va);
      if q == pp { return true; }
      var gaps := CountGaps(e, va);
      var enough := AtLeast(gaps);
      return !enough;
    }

    /** How many tables the walk for va lacks. */
    method CountGaps(e: nat, va: nat) returns (g: nat)
      requires Valid() && e in pgdir && Owned(PD0X(va))
      ensures g == Gaps(M(), e, va)
    {
      ghost var m := M();
      var d := pgdir[e];
      ValidIffTarget(m, d, PD0X(va));
      if !IsValid(frames[d][PD0X(va)]) { return 3; }
      StepLevel(m, d, PD0X(va));
      d := FrameOf(frames[d][PD0X(va)]);
      ValidIffTarget(m, d, PD1X(va));
      if !IsValid(frames[d][PD1X(va)]) { return 2; }
      StepLevel(m, d, PD1X(va));
      d := FrameOf(frames[d][PD1X(va)]);
      ValidIffTarget(m, d, PD2X(va));
      return if IsValid(frames[d][PD2X(va)]) then 0 else 1;
    }

    /** At least k pages are on the free list. */
    method AtLeast(k: nat) returns (ok: bool)
      requires Listing()
      ensures ok <==> nfree >= k
    {
      var p, i := freeList, 0;
      while i < k && p != NULL
        invariant 0 <= i <= k && i <= nfree
        invariant if p == NULL then i == nfree else p >= 0 && p in free && free[p] == nfree - 1 - i
      {
        assert ListedIf(pages[..], free, nfree, p);
        p, i := pages[p].link, i + 1;
      }
      return i == k;
    }

    /** Exact reference counting over whole runs.  The trace starts at the state of the call and
        ends at the state left, and the run only stops early at an operation the source would not
        survive. */
    method Run(ops: seq<Op>) returns (rs: seq<Ret>, ghost tr: seq<World>)
      requires Valid() && forall i :: 0 <= i < |ops| ==> OwnedOp(ops[i])
      modifies this`freeList, this`free, this`nfree, this`level, this`pgdir, this`lost, pages, frames
      ensures IsRun(old(W()), ops, rs, tr) && tr[|rs|] == W()
      ensures |rs| < |ops| ==> !CanRun(W(), ops[|rs|])
    {
      ghost var w0 := W();
      rs, tr := [], [w0];
      var ran := true;
      while |rs| < |ops| && ran
        invariant Valid() && IsRun(w0, ops, rs, tr) && tr[|rs|] == W()
        invariant !ran ==> |rs| < |ops| && !CanRun(W(), ops[|rs|])
        decreases |ops| - |rs|, ran
      {
        var r;
        ghost var w := W();
        ran, r := Perform(ops[|rs|]);
        if ran {
          ghost var w' := W();
          StateMore(w0, w, ops[|rs|], r, w');
          RunMore(w0, ops, rs, tr, r, w');
          rs, tr := rs + [r], tr + [w'];
        }
      }
    }
  }
}
