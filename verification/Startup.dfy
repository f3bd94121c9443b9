/** Small kernels, built by the calls that build them. */
module Startup {
  import opened Sv48
  import opened PhysMem
  import opened Translation
  import opened Pmap
  import opened Sweep
  import Kernel

  /** 64 pages, the first reserved. */
  method NoSpaces() returns (k: Kernel.Kernel)
    ensures fresh(k) && fresh(k.pages) && fresh(k.frames) && k.Valid() && k.pages.Length == 64 && k.nfree == 63
    ensures k.pgdir.Keys == {} && forall e: nat, va: nat :: Pte(k.M(), e, va) == 0
  {
    k := new Kernel.Kernel(64, 1, 64, 0, 64, 64);
    NothingMapped(k.W());
  }

  lemma NothingMapped(w: World)
    requires Sized(w.m) && w.m.pgdir == map[]
    ensures forall e: nat, va: nat :: Pte(w.m, e, va) == 0
  {}

  method AddSpace(k: Kernel.Kernel, e: nat, ghost dirs: set<nat>, ghost n: nat)
    requires k.Valid() && k.pgdir.Keys == dirs && e !in dirs && k.nfree == n > 0
    requires forall x: nat, a: nat :: Pte(k.M(), x, a) == 0
    modifies k, k.pages, k.frames
    ensures k.Valid() && k.pgdir.Keys == dirs + {e} && k.nfree == n - 1
    ensures forall x: nat, a: nat :: Pte(k.M(), x, a) == 0
  {
    var r := k.EnvSetupVm(e, seq(NPTENTRIES, _ => 0), 0);
  }

  const STACK: nat := 0xffff_fcff_f000_0000 - PGSIZE

  lemma StackPage(head: nat)
    ensures Kernel.AddrOk(STACK) && Owned(PD0X(STACK)) && Kernel.PermOk(6) && PteWord(head, 6) != 0
  {
    StackSlot();
  }

  lemma StackMapped(w: World, w': World, r: Kernel.Ret)
    requires Sized(w.m) && w.n == 62 && 0 in w.m.pgdir && Kernel.AllocStep(w, 0, STACK, 6, r, w')
    ensures Sized(w'.m) && Pte(w'.m, 0, STACK) != 0
  {
    StackPage(if w.head >= 0 then w.head else 0);
    assert r == Kernel.Ok;
    assert Pte(w'.m, 0, STACK) == PteWord(w.head, 6);
  }

  method MapStack(k: Kernel.Kernel, ghost w: World)
    requires w == k.W() && Good(w, NULL) && w.n == 62 && 0 in w.m.pgdir
    modifies k, k.pages, k.frames
    ensures k.Valid() && k.pgdir == w.m.pgdir && k.lost == w.m.lost && Pte(k.M(), 0, STACK) != 0
  {
    StackPage(0);
    var r := k.SysPageAlloc(0, STACK, 6);
    StackMapped(w, k.W(), r);
  }

  /** An environment with a stack page comes and goes: a table is lost. */
  method StackLeaks() returns (k: Kernel.Kernel)
    ensures fresh(k) && k.Valid() && k.pgdir == map[] && k.lost != {}
  {
    k := NoSpaces();
    AddSpace(k, 0, {}, 63);
    MapStack(k, k.W());
    ghost var w := k.W();
    StackDefeatsSweep(w.m, 0);
    k.EnvFree(0);
    assert w.m.lost <= k.lost && k.lost != w.m.lost;
  }
}
