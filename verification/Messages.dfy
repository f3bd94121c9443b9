/** sys_ipc_try_send and sys_ipc_recv whole: the IPC fields and status of every environment beside the
    page tables. */
module Messages {
  import opened Sched
  import opened Sv48
  import opened PhysMem
  import opened Translation
  import opened Pmap
  import Kernel
  import Smp
  import Startup

  datatype Ret = Ok | BadEnv | NotRecv | Inval | NoMem

  datatype State = State(w: World, status: seq<Status>, ipc: seq<Smp.Ipc>)

  /** An environment has page tables while its slot is in use, and the address recorded for a page is
      one sys_ipc_recv accepted. */
  ghost predicate Consistent(x: State) {
    && Good(x.w, NULL) && |x.status| == NENV == |x.ipc|
    && (forall e: nat :: e in x.w.m.pgdir <==> e < NENV && x.status[e] != FREE)
    && (forall e :: 0 <= e < NENV ==> Recordable(x.ipc[e].dstva))
  }

  predicate Recordable(va: nat) { Kernel.AddrOk(va) && Owned(PD0X(va)) }

  /** e exists and is blocked in a receive. */
  predicate Receiving(x: State, e: nat)
    requires |x.status| == NENV == |x.ipc|
  {
    e < NENV && x.status[e] != FREE && x.ipc[e].recving
  }

  /** The page at srcva of cur may be sent with perm. */
  ghost predicate Sendable(x: State, cur: nat, srcva: nat, perm: nat)
    requires Sized(x.w.m)
  {
    Kernel.AddrOk(srcva) && Kernel.PermOk(perm) && Kernel.Shareable(x.w, cur, srcva, perm)
  }

  /** The word a transfer stores. */
  ghost function Word(x: State, cur: nat, srcva: nat, perm: nat): nat
    requires Sized(x.w.m) && perm < PTE_SYSCALL_LIMIT
  {
    PteWord(FrameOf(Pte(x.w.m, cur, srcva)), perm)
  }

  /** The page's 16-bit count does not go past its limit. */
  ghost predicate HasRoom(x: State, cur: nat, e: nat, srcva: nat, perm: nat)
    requires Sized(x.w.m) && e < |x.ipc|
  {
    Sendable(x, cur, srcva, perm) ==> Kernel.Sharing(x.w, cur, srcva, e, x.ipc[e].dstva, perm)
  }

  /** A page goes along and there is memory to map it at the recorded address. */
  ghost predicate Transfers(x: State, cur: nat, e: nat, srcva: nat, perm: nat)
    requires Sized(x.w.m) && e < |x.ipc|
  {
    srcva < UTOP && Sendable(x, cur, srcva, perm) && Gaps(x.w.m, e, x.ipc[e].dstva) <= x.w.n
  }

  /** What sys_ipc_try_send does, by result.  Every error leaves fields, status and translations. */
  ghost predicate SendEffect(x: State, cur: nat, e: nat, value: nat, srcva: nat, perm: nat, r: Ret, x': State)
    requires |x.status| == NENV == |x.ipc| && Sized(x.w.m)
  {
    && (r == BadEnv <==> e >= NENV || x.status[e] == FREE)
    && (r == NotRecv <==> r != BadEnv && !x.ipc[e].recving)
    && (r == Inval <==> Receiving(x, e) && srcva < UTOP && !Sendable(x, cur, srcva, perm))
    && (r == NoMem <==>
          Receiving(x, e) && srcva < UTOP && Sendable(x, cur, srcva, perm) && !Transfers(x, cur, e, srcva, perm))
    && (r != Ok ==> x'.status == x.status && x'.ipc == x.ipc && SameMap(x.w.m, x'.w.m))
    && (r == Ok ==>
          && x'.status == x.status[e := RUNNABLE]
          && x'.ipc == x.ipc[e := Smp.Ipc(false, x.ipc[e].dstva, value, cur, if srcva < UTOP then perm else 0)]
          && (srcva >= UTOP ==> SameMap(x.w.m, x'.w.m))
          && (srcva < UTOP ==>
                perm < PTE_SYSCALL_LIMIT && MapsOnly(x.w.m, x'.w.m, e, x.ipc[e].dstva, Word(x, cur, srcva, perm))))
  }

  /** What sys_ipc_recv by e does, up to sched_yield. */
  ghost predicate RecvEffect(x: State, e: nat, dstva: nat, r: Ret, x': State)
    requires |x.status| == NENV == |x.ipc| && e < NENV
  {
    && r == (if !x.ipc[e].recving && Smp.Misaligned(dstva) then Inval else Ok)
    && (r == Inval ==> x' == x)
    && (r == Ok ==>
          && x'.w == x.w && x'.status == x.status[e := NOT_RUNNABLE] && |x'.ipc| == NENV
          && (forall f :: 0 <= f < NENV && f != e ==> x'.ipc[f] == x.ipc[f])
          && x'.ipc[e].recving && x'.ipc[e] == x.ipc[e].(recving := true, dstva := x'.ipc[e].dstva)
          && x'.ipc[e].dstva == if !x.ipc[e].recving && dstva < UTOP then dstva else x.ipc[e].dstva)
  }

  /** A send is one step of the CPU it runs on, as the scheduler sees it; a failed one changes nothing. */
  lemma SendIsStep(x: State, x': State, s: Smp.State, c: nat, e: nat, value: nat, srcva: nat, perm: nat, r: Ret)
    requires |x.status| == NENV == |x.ipc| && Sized(x.w.m) && Smp.Sized(s) && s.status == x.status && s.ipc == x.ipc
    requires c < |s.cpus| && s.cpus[c].mode == Smp.Run && s.cpus[c].cur >= 0
    requires SendEffect(x, s.cpus[c].cur, e, value, srcva, perm, r, x')
    ensures var page := if srcva >= UTOP then Smp.NoPage else if r == Ok then Smp.Sent else Smp.Failed;
            Smp.Follows(s, Smp.Event(c, Smp.Send(e, value, perm, page)), s.(status := x'.status, ipc := x'.ipc))
  {
    if r != Ok { assert s.(status := x'.status, ipc := x'.ipc) == s; }
  }

  /** The interface promises a receiver that gave no address below UTOP that nothing is mapped for it.
      It holds exactly when the sender has no page to send or it cannot be mapped, or the very
      entry was there: otherwise the page lands at the address of an earlier receive, or at 0. */
  lemma NothingMappedIff(x: State, x1: State, x2: State, e: nat, dstva: nat, cur: nat, value: nat, srcva: nat,
                         perm: nat, r: Ret)
    requires Consistent(x) && e < NENV && x.status[e] != FREE && !x.ipc[e].recving && dstva >= UTOP
    requires RecvEffect(x, e, dstva, Ok, x1) && SendEffect(x1, cur, e, value, srcva, perm, r, x2)
    ensures r == Ok <==> srcva >= UTOP || Transfers(x, cur, e, srcva, perm)
    ensures SameMap(x.w.m, x2.w.m) <==>
              !Transfers(x, cur, e, srcva, perm) || Pte(x.w.m, e, x.ipc[e].dstva) == Word(x, cur, srcva, perm)
    ensures Transfers(x, cur, e, srcva, perm) ==> MapsOnly(x.w.m, x2.w.m, e, x.ipc[e].dstva, Word(x, cur, srcva, perm))
  {
    var m, m', at := x.w.m, x2.w.m, x.ipc[e].dstva;
    if Transfers(x, cur, e, srcva, perm) {
      var word := Word(x, cur, srcva, perm);
      assert Pte(m', e, at) == word;
      if Pte(m, e, at) == word {
        forall f: nat, a: nat ensures Pte(m', f, a) == Pte(m, f, a) { SamePage(m, f, a, at); }
      }
    }
  }

  /** Addresses within one page have one entry. */
  lemma SamePage(m: Mem, e: nat, a: nat, b: nat)
    requires Sized(m)
    ensures Vpn(a) == Vpn(b) ==> Pte(m, e, a) == Pte(m, e, b)
  {
    SamePathIffSameVpn(a, b);
  }

  /** The page part of a send took x.w to w. */
  ghost predicate PageSent(x: State, w: World, cur: nat, e: nat, srcva: nat, perm: nat, r: Ret)
    requires |x.status| == NENV == |x.ipc| && Sized(x.w.m) && e < NENV
  {
    && r in {Ok, Inval, NoMem} && (r == Inval <==> !Sendable(x, cur, srcva, perm))
    && (r == Ok <==> Transfers(x, cur, e, srcva, perm))
    && (r != Ok ==> SameMap(x.w.m, w.m))
    && (r == Ok ==> perm < PTE_SYSCALL_LIMIT && MapsOnly(x.w.m, w.m, e, x.ipc[e].dstva, Word(x, cur, srcva, perm)))
  }

  function Lift(p: Kernel.Ret): Ret {
    match p case Ok => Ok case BadEnv => BadEnv case Inval => Inval case NoMem => NoMem
  }

  lemma PageStepSent(x: State, w: World, cur: nat, e: nat, srcva: nat, perm: nat, p: Kernel.Ret)
    requires |x.status| == NENV == |x.ipc| && e < NENV && srcva < UTOP
    requires Kernel.SendStep(x.w, cur, srcva, e, x.ipc[e].dstva, perm, p, w)
    ensures PageSent(x, w, cur, e, srcva, perm, Lift(p))
  {}

  lemma SendFailed(x: State, x': State, cur: nat, e: nat, value: nat, srcva: nat, perm: nat, r: Ret)
    requires Consistent(x) && Receiving(x, e) && srcva < UTOP && x'.status == x.status && x'.ipc == x.ipc
    requires Good(x'.w, NULL) && x'.w.m.pgdir == x.w.m.pgdir && PageSent(x, x'.w, cur, e, srcva, perm, r) && r != Ok
    ensures Consistent(x') && SendEffect(x, cur, e, value, srcva, perm, r, x')
  {}

  lemma SendDone(x: State, x': State, cur: nat, e: nat, value: nat, srcva: nat, perm: nat)
    requires Consistent(x) && Receiving(x, e)
    requires Good(x'.w, NULL) && x'.w.m.pgdir == x.w.m.pgdir
    requires if srcva < UTOP then PageSent(x, x'.w, cur, e, srcva, perm, Ok) else x'.w == x.w
    requires x'.status == x.status[e := RUNNABLE]
    requires x'.ipc == x.ipc[e := Smp.Ipc(false, x.ipc[e].dstva, value, cur, if srcva < UTOP then perm else 0)]
    ensures Consistent(x') && SendEffect(x, cur, e, value, srcva, perm, Ok, x')
  {}

  class Envs {
    const k: Kernel.Kernel
    var status: seq<Status>
    var ipc: seq<Smp.Ipc>

    ghost function X(): State
      reads this, k, k.pages, k.frames
    {
      State(k.W(), status, ipc)
    }

    ghost predicate Valid()
      reads this, k, k.pages, k.frames
    {
      Consistent(X())
    }

    constructor (k: Kernel.Kernel, status: seq<Status>, ipc: seq<Smp.Ipc>)
      requires Consistent(State(k.W(), status, ipc))
      ensures Valid() && X() == State(k.W(), status, ipc) && this.k == k
    {
      this.k, this.status, this.ipc := k, status, ipc;
    }

    /** sys_ipc_try_send by cur.  The page has room for a reference; addresses lie in slots
        environments own. */
    method TrySend(cur: nat, e: nat, value: nat, srcva: nat, perm: nat) returns (r: Ret)
      requires Valid() && cur < NENV && status[cur] != FREE
      requires srcva < UTOP ==> Owned(PD0X(srcva)) && (Receiving(X(), e) ==> HasRoom(X(), cur, e, srcva, perm))
      modifies this, k, k.pages, k.frames
      ensures Valid() && SendEffect(old(X()), cur, e, value, srcva, perm, r, X())
    {
      ghost var x := X();
      if e >= NENV || status[e] == FREE { return BadEnv; }
      if !ipc[e].recving { return NotRecv; }
      if srcva < UTOP {
        r := SendAlong(cur, e, srcva, perm, x);
        if r != Ok {
          SendFailed(x, X(), cur, e, value, srcva, perm, r);
          return;
        }
      }
      ghost var w := k.W();
      ipc := ipc[e := Smp.Ipc(false, ipc[e].dstva, value, cur, if srcva < UTOP then perm else 0)];
      status := status[e := RUNNABLE];
      r := Ok;
      assert X() == State(w, status, ipc);
      SendDone(x, X(), cur, e, value, srcva, perm);
    }

    /** The page part. */
    method SendAlong(cur: nat, e: nat, srcva: nat, perm: nat, ghost x: State) returns (r: Ret)
      requires x == X() && Consistent(x) && cur < NENV && status[cur] != FREE && e < NENV && status[e] != FREE
      requires srcva < UTOP && Owned(PD0X(srcva)) && HasRoom(x, cur, e, srcva, perm)
      modifies k, k.pages, k.frames
      ensures Good(k.W(), NULL) && k.pgdir == x.w.m.pgdir && PageSent(x, k.W(), cur, e, srcva, perm, r)
    {
      assert Recordable(ipc[e].dstva);
      var p := k.SendPage(cur, srcva, e, ipc[e].dstva, perm);
      PageStepSent(x, k.W(), cur, e, srcva, perm, p);
      r := Lift(p);
    }

    /** sys_ipc_recv by e, up to sched_yield. */
    method Recv(e: nat, dstva: nat) returns (r: Ret)
      requires Valid() && e < NENV && status[e] != FREE && (Kernel.AddrOk(dstva) ==> Owned(PD0X(dstva)))
      modifies this
      ensures Valid() && RecvEffect(old(X()), e, dstva, r, X())
    {
      if ipc[e].recving {
        status := status[e := NOT_RUNNABLE];
        return Ok;
      }
      if Smp.Misaligned(dstva) { return Inval; }
      ipc := ipc[e := ipc[e].(recving := true, dstva := if dstva < UTOP then dstva else ipc[e].dstva)];
      status := status[e := NOT_RUNNABLE];
      r := Ok;
    }
  }

  /* ---- an input ---- */

  /** Two environments, with nothing mapped. */
  ghost predicate Blank(w: World) {
    && Good(w, NULL) && |w.pages| == 64 && w.n == 61 && w.m.pgdir.Keys == {0, 1}
    && forall e: nat, va: nat :: Pte(w.m, e, va) == 0
  }

  method TwoSpaces() returns (k: Kernel.Kernel)
    ensures fresh(k) && fresh(k.pages) && fresh(k.frames) && Blank(k.W())
  {
    k := Startup.NoSpaces();
    Startup.AddSpace(k, 0, {}, 63);
    Startup.AddSpace(k, 1, {0}, 62);
  }

  /** Environment 0 has a page at PGSIZE. */
  ghost predicate OnePage(w: World) {
    && Good(w, NULL) && |w.pages| == 64 && w.n >= 57 && w.m.pgdir.Keys == {0, 1}
    && Pte(w.m, 0, PGSIZE) != 0 && Kernel.Writable(Pte(w.m, 0, PGSIZE)) && Pte(w.m, 1, 0) == 0
  }

  lemma InputWords(head: nat)
    ensures Recordable(PGSIZE) && Recordable(0) && Kernel.PermOk(6) && Vpn(0) != Vpn(PGSIZE)
    ensures PteWord(head, 6) != 0 && Kernel.Writable(PteWord(head, 6))
  {
    assert PteWord(head, 6) == (head + 0x8_0000) * 1024 + 7;
  }

  lemma PageAllocated(w: World, w': World, r: Kernel.Ret)
    requires Sized(w.m) && w.n == 61 && w.m.pgdir.Keys == {0, 1} && Pte(w.m, 1, 0) == 0
    requires Good(w', NULL) && |w'.pages| == 64 && w'.m.pgdir == w.m.pgdir
    requires Kernel.AllocStep(w, 0, PGSIZE, 6, r, w')
    ensures OnePage(w')
  {
    InputWords(if w.head >= 0 then w.head else 0);
    assert r == Kernel.Ok;
    assert Pte(w'.m, 0, PGSIZE) == PteWord(w.head, 6);
    assert Pte(w'.m, 1, 0) == Pte(w.m, 1, 0);
  }

  method AllocPage(k: Kernel.Kernel, ghost w: World)
    requires w == k.W() && Blank(w)
    modifies k, k.pages, k.frames
    ensures OnePage(k.W())
  {
    InputWords(0);
    var r := k.SysPageAlloc(0, PGSIZE, 6);
    PageAllocated(w, k.W(), r);
  }

  lemma InputTransfers(x: State)
    requires OnePage(x.w) && |x.ipc| == NENV && x.ipc[1].dstva == 0
    ensures Transfers(x, 0, 1, PGSIZE, 6) && Word(x, 0, PGSIZE, 6) != 0 && HasRoom(x, 0, 1, PGSIZE, 6)
    ensures Owned(PD0X(PGSIZE))
  {
    InputWords(FrameOf(Pte(x.w.m, 0, PGSIZE)));
    CountWithinEntries(x.w, 0, PGSIZE);
  }

  lemma InputMapped(x: State, x1: State, x2: State, r: Ret)
    requires Consistent(x) && OnePage(x.w) && x.status[1] != FREE && !x.ipc[1].recving && x.ipc[1].dstva == 0
    requires RecvEffect(x, 1, UTOP, Ok, x1) && SendEffect(x1, 0, 1, 7, PGSIZE, 6, r, x2)
    ensures r == Ok && Sized(x2.w.m) && Pte(x2.w.m, 1, 0) != 0
  {
    InputTransfers(x);
    NothingMappedIff(x, x1, x2, 1, UTOP, 0, 7, PGSIZE, 6, r);
  }

  lemma InputConsistent(x: State)
    requires OnePage(x.w) && x.status == seq(NENV, i => if i < 2 then RUNNING else FREE)
    requires x.ipc == seq(NENV, _ => Smp.Ipc(false, 0, 0, 0, 0))
    ensures Consistent(x)
  {
    InputWords(0);
    forall e: nat ensures e in x.w.m.pgdir <==> e < NENV && x.status[e] != FREE {
      assert e in x.w.m.pgdir <==> e in {0, 1};
    }
  }

  /** A receiver that asked for no page has one mapped at address 0. */
  method RefusedPageMapped() returns (r: Ret, ghost x: State, ghost x1: State, ghost x2: State)
    ensures Consistent(x) && !x.ipc[1].recving && RecvEffect(x, 1, UTOP, Ok, x1)
    ensures r == Ok && SendEffect(x1, 0, 1, 7, PGSIZE, 6, r, x2)
    ensures Pte(x.w.m, 1, 0) == 0 && Sized(x2.w.m) && Pte(x2.w.m, 1, 0) != 0
  {
    var k := TwoSpaces();
    AllocPage(k, k.W());
    var status, ipc := seq(NENV, i => if i < 2 then RUNNING else FREE), seq(NENV, _ => Smp.Ipc(false, 0, 0, 0, 0));
    x := State(k.W(), status, ipc);
    InputConsistent(x);
    var envs := new Envs(k, status, ipc);
    r := envs.Recv(1, UTOP);
    x1 := envs.X();
    InputTransfers(x);
    r := envs.TrySend(0, 1, 7, PGSIZE, 6);
    x2 := envs.X();
    InputMapped(x, x1, x2, r);
  }
}
