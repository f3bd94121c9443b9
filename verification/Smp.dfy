/** Environments, CPUs and the big kernel lock as a step relation.

    Every CPU goes round the cycle user or idle, trap entry, lock, kernel, unlock; the
    modes name the points of trap(), sched_yield(), sched_halt() and env_run() at which
    another CPU may take a step.  Interrupts are off between lock and unlock. */
module Smp {
  import opened Options
  import opened Sched
  import Sv48

  /** The IPC fields of struct Env. */
  datatype Ipc = Ipc(recving: bool, dstva: nat, value: nat, from: int, perm: nat)

  datatype Mode =
    | Booting             // mp_main before lock_kernel
    | BootWait            // lock_kernel in mp_main
    | User | Idle         // user code; the loop at the end of sched_halt
    | Trapped(spp: bool)  // start of trap; spp: trapped from kernel mode
    | WaitA(spp: bool)    // lock_kernel after cpu_status was CPU_HALTED
    | Check(spp: bool)    // the test of SSTATUS_SPP
    | WaitB               // lock_kernel on a trap from user mode
    | Enter               // the test for ENV_DYING
    | Run                 // trap_dispatch on behalf of curenv
    | Yield               // sched_yield
    | ExitUser | ExitHalt // about to unlock_kernel
    | Stuck               // the monitor loop: no environments left

  /** `locks` counts the acquisitions of the kernel lock since this kernel entry. */
  datatype Cpu = Cpu(mode: Mode, cur: int, halted: bool, locks: nat)

  datatype State = State(status: seq<Status>, ipc: seq<Ipc>, cpus: seq<Cpu>, locked: bool)

  /** How the page part of sys_ipc_try_send went. */
  datatype Page = NoPage | Sent | Failed

  datatype Action =
    | Boot | Interrupt | Xchg | Acquire | CheckSpp | Collect
    | Exofork(e: nat) | SetStatus(e: nat, st: Status) | Destroy(e: nat)
    | Send(e: nat, value: nat, perm: nat, page: Page) | Recv(dstva: nat) | YieldNow | Return
    | Schedule(p: int) | Leave

  predicate Sized(s: State) {
    |s.status| == NENV && |s.ipc| == NENV && forall c :: 0 <= c < |s.cpus| ==> NONE <= s.cpus[c].cur < NENV
  }

  function SetCpu(s: State, c: nat, cpu: Cpu): State
    requires c < |s.cpus|
  {
    s.(cpus := s.cpus[c := cpu])
  }

  function SetMode(s: State, c: nat, mode: Mode): State
    requires c < |s.cpus|
  {
    SetCpu(s, c, s.cpus[c].(mode := mode))
  }

  /** env_destroy by curenv of another CPU or environment. */
  function DestroyOther(s: State, e: nat): State
    requires e < |s.status|
  {
    s.(status := s.status[e := if s.status[e] == RUNNING then DYING else FREE])
  }

  /** env_free of curenv, then curenv = NULL. */
  function FreeCurrent(s: State, c: nat): State
    requires c < |s.cpus| && 0 <= s.cpus[c].cur < |s.status|
  {
    SetCpu(s.(status := s.status[s.cpus[c].cur := FREE]), c, s.cpus[c].(cur := NONE, mode := Yield))
  }

  /** sys_ipc_try_send succeeds: the target is receiving and any page went through. */
  predicate Delivers(s: State, e: nat, page: Page)
    requires e < |s.status| == |s.ipc|
  {
    s.status[e] != FREE && s.ipc[e].recving && page != Failed
  }

  function Deliver(s: State, e: nat, value: nat, from: int, perm: nat, page: Page): State
    requires e < |s.status| == |s.ipc|
  {
    s.(status := s.status[e := RUNNABLE],
       ipc := s.ipc[e := Ipc(false, s.ipc[e].dstva, value, from, if page == Sent then perm else 0)])
  }

  /** env_run(p). */
  function RunEnv(s: State, c: nat, p: nat): State
    requires c < |s.cpus| && NONE <= s.cpus[c].cur < |s.status| && p < |s.status|
  {
    var cur := s.cpus[c].cur;
    var st1 := if cur != NONE && s.status[cur] == RUNNING then s.status[cur := RUNNABLE] else s.status;
    SetCpu(s.(status := st1[p := RUNNING]), c, s.cpus[c].(cur := p, mode := ExitUser))
  }

  predicate SomeAlive(st: seq<Status>) {
    exists i :: 0 <= i < |st| && (st[i] == RUNNABLE || st[i] == RUNNING || st[i] == DYING)
  }

  /** sys_ipc_recv rejects an address below UTOP that is not aligned. */
  predicate Misaligned(dstva: nat) { dstva < Sv48.UTOP && dstva % Sv48.PGSIZE != 0 }

  /** sys_ipc_recv by the current environment of c, up to sched_yield. */
  function Block(s: State, c: nat, dstva: nat): State
    requires c < |s.cpus| && 0 <= s.cpus[c].cur < |s.status| == |s.ipc|
  {
    var e := s.cpus[c].cur;
    var i := s.ipc[e];
    var i' := if i.recving then i else i.(recving := true, dstva := if dstva < Sv48.UTOP then dstva else i.dstva);
    SetMode(s.(status := s.status[e := NOT_RUNNABLE], ipc := s.ipc[e := i']), c, Yield)
  }

  /** One step of CPU c; None when the action is not enabled there.  A send or receive that fails
      changes nothing. */
  ghost function Step(s: State, c: nat, a: Action): Option<State>
    requires Sized(s) && c < |s.cpus|
  {
    var cpu := s.cpus[c];
    match a
    case Boot => if cpu.mode == Booting then Some(SetCpu(s, c, cpu.(mode := BootWait, halted := false))) else None
    case Interrupt =>
      if cpu.mode == User then Some(SetMode(s, c, Trapped(false)))
      else if cpu.mode == Idle then Some(SetMode(s, c, Trapped(true)))
      else None
    case Xchg =>
      if cpu.mode.Trapped?
      then
        var next := if cpu.halted then WaitA(cpu.mode.spp) else Check(cpu.mode.spp);
        Some(SetCpu(s, c, cpu.(halted := false, mode := next)))
      else None
    case Acquire =>
      if s.locked || !(cpu.mode.WaitA? || cpu.mode == WaitB || cpu.mode == BootWait) then None
      else
        var next := if cpu.mode.WaitA? then Check(cpu.mode.spp) else if cpu.mode == WaitB then Enter else Yield;
        Some(SetCpu(s, c, cpu.(mode := next, locks := cpu.locks + 1)).(locked := true))
    case CheckSpp =>
      if cpu.mode.Check? then Some(SetMode(s, c, if cpu.mode.spp then Yield else WaitB)) else None
    case Collect =>
      if cpu.mode != Enter || cpu.cur == NONE then None
      else if s.status[cpu.cur] == DYING then Some(FreeCurrent(s, c))
      else Some(SetMode(s, c, Run))
    case Exofork(e) =>
      if cpu.mode == Run && e < NENV && s.status[e] == FREE
      then Some(s.(status := s.status[e := NOT_RUNNABLE], ipc := s.ipc[e := s.ipc[e].(recving := false)]))
      else None
    case SetStatus(e, st) =>
      if cpu.mode == Run && e < NENV && (s.status[e] == RUNNABLE || s.status[e] == NOT_RUNNABLE)
      then Some(s.(status := s.status[e := st]))
      else None
    case Destroy(e) =>
      if cpu.mode != Run || e >= NENV || cpu.cur == NONE || s.status[e] == FREE then None
      else if e == cpu.cur then Some(FreeCurrent(s, c))
      else Some(DestroyOther(s, e))
    case Send(e, value, perm, page) =>
      if cpu.mode != Run then None
      else if e >= NENV || !Delivers(s, e, page) then Some(s)
      else Some(Deliver(s, e, value, cpu.cur, perm, page))
    case Recv(dstva) =>
      if cpu.mode != Run || cpu.cur == NONE then None
      else if !s.ipc[cpu.cur].recving && Misaligned(dstva) then Some(s)
      else Some(Block(s, c, dstva))
    case YieldNow => if cpu.mode == Run then Some(SetMode(s, c, Yield)) else None
    case Return =>
      if cpu.mode != Run then None
      else if cpu.cur != NONE && s.status[cpu.cur] == RUNNING then Some(RunEnv(s, c, cpu.cur))
      else Some(SetMode(s, c, Yield))
    case Schedule(p) =>
      if cpu.mode != Yield || !(NONE <= p < NENV) || !Chosen(s.status, cpu.cur, p) then None
      else if p != NONE then Some(RunEnv(s, c, p))
      else if !SomeAlive(s.status) then Some(SetMode(s, c, Stuck))
      else Some(SetCpu(s, c, cpu.(cur := NONE, halted := true, mode := ExitHalt)))
    case Leave =>
      if cpu.mode == ExitUser then Some(SetCpu(s, c, cpu.(mode := User, locks := 0)).(locked := false))
      else if cpu.mode == ExitHalt then Some(SetCpu(s, c, cpu.(mode := Idle, locks := 0)).(locked := false))
      else None
  }

  /* ---- the invariant ---- */

  /** Waiting for the lock, or outside the kernel: this CPU holds no lock. */
  predicate Outside(m: Mode) {
    match m
    case Booting | BootWait | User | Idle | Trapped(_) | WaitA(_) | WaitB => true
    case Check(spp) => !spp
    case _ => false
  }

  /** Modes in which the CPU is acting for a user environment. */
  predicate ForUser(m: Mode) {
    match m
    case User | WaitB | Enter | Run | ExitUser => true
    case Trapped(spp) => !spp
    case WaitA(spp) => !spp
    case Check(spp) => !spp
    case _ => false
  }

  predicate CpuOk(st: seq<Status>, cpu: Cpu)
    requires NONE <= cpu.cur < |st|
  {
    && cpu.locks == (if Outside(cpu.mode) then 0 else 1)
    && (cpu.halted <==> cpu.mode == Idle || cpu.mode == Trapped(true) || cpu.mode == ExitHalt)
    && cpu.mode != WaitA(false)
    && (ForUser(cpu.mode) ==> cpu.cur != NONE)
    && (cpu.cur != NONE ==>
          match cpu.mode
          case User | WaitB | Enter => st[cpu.cur] == RUNNING || st[cpu.cur] == DYING
          case Trapped(spp) => !spp && (st[cpu.cur] == RUNNING || st[cpu.cur] == DYING)
          case Check(spp) => !spp && (st[cpu.cur] == RUNNING || st[cpu.cur] == DYING)
          case Run | ExitUser => st[cpu.cur] == RUNNING
          case Yield => st[cpu.cur] == RUNNING || st[cpu.cur] == NOT_RUNNABLE
          case Stuck => st[cpu.cur] == NOT_RUNNABLE
          case _ => false)
  }

  ghost predicate Locking(s: State) {
    && (forall c, d :: 0 <= c < |s.cpus| && 0 <= d < |s.cpus| && s.cpus[c].locks > 0 && s.cpus[d].locks > 0 ==> c == d)
    && (s.locked <==> exists c :: 0 <= c < |s.cpus| && s.cpus[c].locks > 0)
  }

  ghost predicate Exclusive(s: State) {
    forall c, d :: 0 <= c < |s.cpus| && 0 <= d < |s.cpus| ==>
                     NONE != s.cpus[c].cur == s.cpus[d].cur ==> c == d
  }

  predicate OnSomeCpu(s: State, e: int) { exists c :: 0 <= c < |s.cpus| && s.cpus[c].cur == e }

  ghost predicate Placed(s: State) {
    forall e :: 0 <= e < |s.status| && (s.status[e] == RUNNING || s.status[e] == DYING) ==> OnSomeCpu(s, e)
  }

  predicate Blocked(s: State)
    requires |s.ipc| == |s.status|
  {
    forall e :: 0 <= e < |s.ipc| && s.ipc[e].recving && s.status[e] != FREE ==> s.status[e] == NOT_RUNNABLE
  }

  ghost predicate Inv(s: State) {
    && Sized(s) && Locking(s) && Exclusive(s) && Placed(s) && Blocked(s)
    && forall c :: 0 <= c < |s.cpus| ==> CpuOk(s.status, s.cpus[c])
  }

  /* ---- every step keeps it ---- */

  /** What the claim asks of the two calls the source leaves unguarded. */
  predicate Legal(s: State, c: nat, a: Action)
    requires Sized(s) && c < |s.cpus|
  {
    match a
    case SetStatus(e, st) => e < NENV ==> KeepsPlaces(s, e, st)
    case Destroy(e) => e < NENV && e != s.cpus[c].cur ==> s.status[e] != DYING
    case _ => true
  }

  /** sys_env_set_status accepts any status; these are the ones it can bear. */
  predicate KeepsPlaces(s: State, e: nat, st: Status)
    requires e < |s.status| == |s.ipc|
  {
    st != RUNNING && st != DYING && (s.ipc[e].recving ==> st != RUNNABLE)
  }

  predicate Busy(st: Status) { st == RUNNING || st == DYING }

  /** Nobody's hold on the lock changed. */
  lemma SameLocks(s: State, s': State)
    requires Locking(s) && |s'.cpus| == |s.cpus| && s'.locked == s.locked
    requires forall d :: 0 <= d < |s.cpus| ==> s'.cpus[d].locks == s.cpus[d].locks
    ensures Locking(s')
  {}

  /** Busy environments stay placed when only CPU c may have changed environment. */
  lemma StillPlaced(s: State, s': State, c: nat)
    requires Placed(s) && |s'.cpus| == |s.cpus| && |s'.status| == |s.status| && c < |s.cpus|
    requires forall d :: 0 <= d < |s.cpus| && d != c ==> s'.cpus[d].cur == s.cpus[d].cur
    requires forall e :: 0 <= e < |s.status| && Busy(s'.status[e]) ==>
               e == s'.cpus[c].cur || (Busy(s.status[e]) && e != s.cpus[c].cur)
    ensures Placed(s')
  {
    forall e | 0 <= e < |s'.status| && Busy(s'.status[e]) ensures OnSomeCpu(s', e) {
      if e != s'.cpus[c].cur {
        assert OnSomeCpu(s, e);
        var d :| 0 <= d < |s.cpus| && s.cpus[d].cur == e;
        assert s'.cpus[d].cur == e;
      }
    }
  }

  /** Only CPU c changed, and neither its environment nor its hold on the lock. */
  lemma SameHold(s: State, c: nat, cpu: Cpu)
    requires Inv(s) && c < |s.cpus| && cpu.cur == s.cpus[c].cur && cpu.locks == s.cpus[c].locks && CpuOk(s.status, cpu)
    ensures Inv(SetCpu(s, c, cpu))
  {
    var s' := SetCpu(s, c, cpu);
    SameLocks(s, s');
    StillPlaced(s, s', c);
  }

  lemma AcquireKeeps(s: State, c: nat, mode: Mode)
    requires Inv(s) && c < |s.cpus| && !s.locked && CpuOk(s.status, s.cpus[c].(mode := mode, locks := 1))
    ensures Inv(SetCpu(s, c, s.cpus[c].(mode := mode, locks := 1)).(locked := true))
  {
    var s' := SetCpu(s, c, s.cpus[c].(mode := mode, locks := 1)).(locked := true);
    StillPlaced(s, s', c);
    assert s'.cpus[c].locks == 1;
    assert forall d :: 0 <= d < |s.cpus| ==> s.cpus[d].locks == 0;
  }

  lemma ReleaseKeeps(s: State, c: nat, mode: Mode)
    requires Inv(s) && c < |s.cpus| && s.cpus[c].locks == 1 && CpuOk(s.status, s.cpus[c].(mode := mode, locks := 0))
    ensures Inv(SetCpu(s, c, s.cpus[c].(mode := mode, locks := 0)).(locked := false))
  {
    var s' := SetCpu(s, c, s.cpus[c].(mode := mode, locks := 0)).(locked := false);
    StillPlaced(s, s', c);
    assert forall d :: 0 <= d < |s.cpus| ==> s'.cpus[d].locks == 0;
  }

  /** While a CPU holds the lock, every other CPU is outside and its environment is
      RUNNING or DYING, so an environment in any other state is on no other CPU. */
  lemma OthersOutside(s: State, c: nat, d: nat)
    requires Inv(s) && c < |s.cpus| && d < |s.cpus| && c != d && s.cpus[c].locks == 1
    ensures Outside(s.cpus[d].mode)
    ensures s.cpus[d].cur != NONE ==> s.status[s.cpus[d].cur] == RUNNING || s.status[s.cpus[d].cur] == DYING
  {
    assert s.cpus[d].locks == 0;
    assert CpuOk(s.status, s.cpus[d]);
  }

  /** The status and IPC record of an environment no CPU runs change, within limits. */
  lemma IdleEnvKeeps(s: State, c: nat, e: nat, st: Status, i: Ipc)
    requires Inv(s) && c < |s.cpus| && s.cpus[c].locks == 1 && s.cpus[c].mode == Run && e < NENV
    requires !Busy(s.status[e]) && !Busy(st)
    requires i.recving && st != FREE ==> st == NOT_RUNNABLE
    ensures Inv(s.(status := s.status[e := st], ipc := s.ipc[e := i]))
  {
    var s' := s.(status := s.status[e := st], ipc := s.ipc[e := i]);
    forall d | 0 <= d < |s'.cpus| ensures CpuOk(s'.status, s'.cpus[d]) {
      if d != c { OthersOutside(s, c, d); }
      assert s'.cpus[d].cur != e;
    }
    StillPlaced(s, s', c);
  }

  /** A RUNNING environment of another CPU is marked DYING; it stays where it is. */
  lemma MarkDyingKeeps(s: State, c: nat, e: nat)
    requires Inv(s) && c < |s.cpus| && s.cpus[c].mode == Run && e < NENV && e != s.cpus[c].cur && s.status[e] == RUNNING
    ensures Inv(s.(status := s.status[e := DYING]))
  {
    var s' := s.(status := s.status[e := DYING]);
    forall d | 0 <= d < |s'.cpus| ensures CpuOk(s'.status, s'.cpus[d]) {
      if d != c { OthersOutside(s, c, d); }
      assert CpuOk(s.status, s.cpus[d]);
    }
    StillPlaced(s, s', c);
  }

  /** curenv is freed on its own CPU, which then has no environment. */
  lemma FreeCurrentKeeps(s: State, c: nat)
    requires Inv(s) && c < |s.cpus| && (s.cpus[c].mode == Enter || s.cpus[c].mode == Run)
    ensures s.cpus[c].cur != NONE && Inv(FreeCurrent(s, c))
  {
    assert CpuOk(s.status, s.cpus[c]);
    var s' := FreeCurrent(s, c);
    var e := s.cpus[c].cur;
    SameLocks(s, s');
    forall d | 0 <= d < |s'.cpus| ensures CpuOk(s'.status, s'.cpus[d]) {
      assert CpuOk(s.status, s.cpus[d]);
      if d != c { assert s.cpus[d].cur != e; }
    }
    StillPlaced(s, s', c);
  }

  lemma RecvKeeps(s: State, c: nat, dstva: nat)
    requires Inv(s) && c < |s.cpus| && s.cpus[c].mode == Run && s.cpus[c].cur != NONE
    ensures Inv(Block(s, c, dstva))
  {
    var s' := Block(s, c, dstva);
    var e := s.cpus[c].cur;
    SameLocks(s, s');
    forall d | 0 <= d < |s'.cpus| ensures CpuOk(s'.status, s'.cpus[d]) {
      assert CpuOk(s.status, s.cpus[d]);
      if d != c { assert s.cpus[d].cur != e; }
    }
    StillPlaced(s, s', c);
  }

  lemma RunEnvOther(s: State, c: nat, p: nat, d: nat)
    requires Inv(s) && c < |s.cpus| && p < NENV && (s.cpus[c].mode == Run || s.cpus[c].mode == Yield)
    requires s.status[p] == RUNNABLE || (p == s.cpus[c].cur && s.status[p] == RUNNING)
    requires d < |s.cpus| && d != c
    ensures var s' := RunEnv(s, c, p); s'.cpus[d].cur != p && CpuOk(s'.status, s'.cpus[d])
  {
    assert CpuOk(s.status, s.cpus[c]) && CpuOk(s.status, s.cpus[d]);
    OthersOutside(s, c, d);
    assert s.cpus[d].cur != NONE ==> s.cpus[d].cur != s.cpus[c].cur;
  }

  /** env_run moves one CPU to an environment that no other CPU has. */
  lemma RunEnvKeeps(s: State, c: nat, p: nat)
    requires Inv(s) && c < |s.cpus| && p < NENV && (s.cpus[c].mode == Run || s.cpus[c].mode == Yield)
    requires s.status[p] == RUNNABLE || (p == s.cpus[c].cur && s.status[p] == RUNNING)
    ensures Inv(RunEnv(s, c, p))
  {
    var s' := RunEnv(s, c, p);
    assert CpuOk(s.status, s.cpus[c]);
    SameLocks(s, s');
    forall d | 0 <= d < |s.cpus| && d != c { RunEnvOther(s, c, p, d); }
    StillPlaced(s, s', c);
  }

  lemma HaltKeeps(s: State, c: nat)
    requires Inv(s) && c < |s.cpus| && s.cpus[c].mode == Yield && Chosen(s.status, s.cpus[c].cur, NONE)
    ensures Inv(SetCpu(s, c, s.cpus[c].(cur := NONE, halted := true, mode := ExitHalt)))
  {
    var s' := SetCpu(s, c, s.cpus[c].(cur := NONE, halted := true, mode := ExitHalt));
    assert CpuOk(s.status, s.cpus[c]);
    SameLocks(s, s');
    StillPlaced(s, s', c);
  }

  /** Steps that change environments. */
  predicate EnvAction(a: Action) { a.Collect? || a.Exofork? || a.SetStatus? || a.Destroy? || a.Send? || a.Recv? }

  lemma EnvStepKeeps(s: State, c: nat, a: Action)
    requires Inv(s) && c < |s.cpus| && Legal(s, c, a) && Step(s, c, a).Some? && EnvAction(a)
    ensures Inv(Step(s, c, a).value)
  {
    var cpu := s.cpus[c];
    assert CpuOk(s.status, cpu);
    match a
    case Collect =>
      if s.status[cpu.cur] == DYING { FreeCurrentKeeps(s, c); } else { SameHold(s, c, cpu.(mode := Run)); }
    case Exofork(e) => IdleEnvKeeps(s, c, e, NOT_RUNNABLE, s.ipc[e].(recving := false));
    case SetStatus(e, st) =>
      IdleEnvKeeps(s, c, e, st, s.ipc[e]);
      assert s.ipc[e := s.ipc[e]] == s.ipc;
    case Destroy(e) =>
      if e == cpu.cur { FreeCurrentKeeps(s, c); }
      else if s.status[e] == RUNNING { MarkDyingKeeps(s, c, e); }
      else {
        IdleEnvKeeps(s, c, e, FREE, s.ipc[e]);
        assert s.ipc[e := s.ipc[e]] == s.ipc;
      }
    case Send(e, value, perm, page) =>
      if e < NENV && Delivers(s, e, page) {
        IdleEnvKeeps(s, c, e, RUNNABLE, Ipc(false, s.ipc[e].dstva, value, cpu.cur, if page == Sent then perm else 0));
      }
    case Recv(dstva) => if s.ipc[cpu.cur].recving || !Misaligned(dstva) { RecvKeeps(s, c, dstva); }
  }

  /** Steps through the entry path and to sched_yield. */
  predicate PathAction(a: Action) { a.Boot? || a.Interrupt? || a.Xchg? || a.CheckSpp? || a.YieldNow? }

  lemma PathStepKeeps(s: State, c: nat, a: Action)
    requires Inv(s) && c < |s.cpus| && Step(s, c, a).Some? && PathAction(a)
    ensures Inv(Step(s, c, a).value)
  {
    assert CpuOk(s.status, s.cpus[c]);
    SameHold(s, c, Step(s, c, a).value.cpus[c]);
  }

  lemma LockStepKeeps(s: State, c: nat, a: Action)
    requires Inv(s) && c < |s.cpus| && Step(s, c, a).Some? && (a.Acquire? || a.Leave?)
    ensures Inv(Step(s, c, a).value)
  {
    assert CpuOk(s.status, s.cpus[c]);
    var mode := Step(s, c, a).value.cpus[c].mode;
    if a.Acquire? { AcquireKeeps(s, c, mode); } else { ReleaseKeeps(s, c, mode); }
  }

  lemma SchedStepKeeps(s: State, c: nat, a: Action)
    requires Inv(s) && c < |s.cpus| && Step(s, c, a).Some? && (a.Return? || a.Schedule?)
    ensures Inv(Step(s, c, a).value)
  {
    var cpu := s.cpus[c];
    assert CpuOk(s.status, cpu);
    if a.Return? { RunEnvKeeps(s, c, cpu.cur); }
    else if a.p != NONE { RunEnvKeeps(s, c, a.p); }
    else if SomeAlive(s.status) { HaltKeeps(s, c); }
    else { SameHold(s, c, cpu.(mode := Stuck)); }
  }

  /** Every legal step keeps the invariant. */
  lemma StepKeeps(s: State, c: nat, a: Action)
    requires Inv(s) && c < |s.cpus| && Legal(s, c, a) && Step(s, c, a).Some?
    ensures Inv(Step(s, c, a).value)
  {
    if EnvAction(a) { EnvStepKeeps(s, c, a); } 
    else if PathAction(a) { PathStepKeeps(s, c, a); }
    else if a.Acquire? || a.Leave? { LockStepKeeps(s, c, a); }
    else { SchedStepKeeps(s, c, a); }
  }

  /* ---- whole runs ---- */

  /** The boot CPU holds the lock and is about to schedule; the others have not started. */
  ghost predicate Init(s: State) {
    && |s.status| == NENV == |s.ipc| && |s.cpus| > 0 && s.locked
    && s.cpus[0] == Cpu(Yield, NONE, false, 1)
    && (forall c :: 1 <= c < |s.cpus| ==> s.cpus[c] == Cpu(Booting, NONE, false, 0))
    && (forall e :: 0 <= e < NENV ==> (s.status[e] == FREE || s.status[e] == RUNNABLE) && !s.ipc[e].recving)
  }

  lemma InitInv(s: State)
    requires Init(s)
    ensures Inv(s)
  {
    assert s.cpus[0].locks > 0;
  }

  datatype Event = Event(c: nat, a: Action)

  /** Some CPU takes a step. */
  ghost predicate Follows(s: State, ev: Event, s': State) {
    Sized(s) && ev.c < |s.cpus| && Step(s, ev.c, ev.a) == Some(s')
  }

  /** One step of a run: some CPU takes a legal step. */
  ghost predicate Next(s: State, ev: Event, s': State) { Follows(s, ev, s') && Legal(s, ev.c, ev.a) }

  ghost predicate IsRun(tr: seq<State>, evs: seq<Event>) {
    |tr| == |evs| + 1 && forall k :: 0 <= k < |evs| ==> Next(tr[k], evs[k], tr[k + 1])
  }

  lemma {:induction false} RunInv(tr: seq<State>, evs: seq<Event>, k: nat)
    requires IsRun(tr, evs) && Init(tr[0]) && k < |tr|
    ensures Inv(tr[k])
  {
    if k == 0 {
      InitInv(tr[0]);
    } else {
      RunInv(tr, evs, k - 1);
      assert Next(tr[k - 1], evs[k - 1], tr[k]);
      StepKeeps(tr[k - 1], evs[k - 1].c, evs[k - 1].a);
    }
  }

  /** SMP exclusivity, in every reachable state: an environment is current on at most one
      CPU, a RUNNING or DYING one on exactly one, and at most one CPU holds the kernel
      lock, which it has acquired exactly once since it entered the kernel. */
  lemma SmpExclusivity(tr: seq<State>, evs: seq<Event>, k: nat)
    requires IsRun(tr, evs) && Init(tr[0]) && k < |tr|
    ensures var s := tr[k];
            && Exclusive(s)
            && (forall e :: 0 <= e < |s.status| && (s.status[e] == RUNNING || s.status[e] == DYING) ==> OnSomeCpu(s, e))
            && (forall c, d :: 0 <= c < |s.cpus| && 0 <= d < |s.cpus| ==>
                                 s.cpus[c].locks > 0 && s.cpus[d].locks > 0 ==> c == d)
            && (forall c :: 0 <= c < |s.cpus| ==> s.cpus[c].locks == if Outside(s.cpus[c].mode) then 0 else 1)
  {
    RunInv(tr, evs, k);
    forall c | 0 <= c < |tr[k].cpus| ensures tr[k].cpus[c].locks == if Outside(tr[k].cpus[c].mode) then 0 else 1 {
      assert CpuOk(tr[k].status, tr[k].cpus[c]);
    }
  }

  /* ---- where the source needs its callers' help ---- */

  /** Destroying another environment is safe if and only if it is not already DYING: that
      one would be freed under the CPU that still runs it. */
  lemma DestroyKeepsIff(s: State, c: nat, e: nat)
    requires Inv(s) && c < |s.cpus| && s.cpus[c].mode == Run && e < NENV && e != s.cpus[c].cur && s.status[e] != FREE
    ensures Inv(DestroyOther(s, e)) <==> s.status[e] != DYING
  {
    if s.status[e] != DYING {
      StepKeeps(s, c, Destroy(e));
    } else {
      assert OnSomeCpu(s, e);
      var d :| 0 <= d < |s.cpus| && s.cpus[d].cur == e;
      assert CpuOk(s.status, s.cpus[d]);
      assert !CpuOk(DestroyOther(s, e).status, DestroyOther(s, e).cpus[d]);
    }
  }

  /** sys_env_set_status, which accepts all five values, is safe if and only if the value
      is not RUNNING or DYING and does not wake an environment blocked in a receive. */
  lemma SetStatusKeepsIff(s: State, c: nat, e: nat, st: Status)
    requires Inv(s) && c < |s.cpus| && s.cpus[c].mode == Run && e < NENV
    requires s.status[e] == RUNNABLE || s.status[e] == NOT_RUNNABLE
    ensures Inv(s.(status := s.status[e := st])) <==> KeepsPlaces(s, e, st)
  {
    var s' := s.(status := s.status[e := st]);
    if KeepsPlaces(s, e, st) {
      StepKeeps(s, c, SetStatus(e, st));
    } else if Busy(st) {
      SetStatusMisplaces(s, c, e, st);
    }
  }

  /** A status of RUNNING or DYING on an environment that no CPU runs loses what exclusivity promises
      at once: the environment is current nowhere. */
  lemma SetStatusMisplaces(s: State, c: nat, e: nat, st: Status)
    requires Inv(s) && c < |s.cpus| && s.cpus[c].mode == Run && e < NENV && Busy(st)
    requires s.status[e] == RUNNABLE || s.status[e] == NOT_RUNNABLE
    ensures var s' := s.(status := s.status[e := st]);
            Step(s, c, SetStatus(e, st)) == Some(s') && Busy(s'.status[e]) && !OnSomeCpu(s', e)
  {
    forall d | 0 <= d < |s.cpus| ensures s.cpus[d].cur != e {
      assert CpuOk(s.status, s.cpus[c]);
      if d != c { OthersOutside(s, c, d); }
    }
  }

  /** The events take s to s', one legal step after the other. */
  ghost predicate Leads(s: State, evs: seq<Event>, s': State) {
    exists tr :: IsRun(tr, evs) && tr[0] == s && tr[|evs|] == s'
  }

  lemma LeadsJoin(s: State, evs: seq<Event>, t: State, evs': seq<Event>, u: State)
    requires Leads(s, evs, t) && Leads(t, evs', u)
    ensures Leads(s, evs + evs', u)
  {
    var tr :| IsRun(tr, evs) && tr[0] == s && tr[|evs|] == t;
    var tr' :| IsRun(tr', evs') && tr'[0] == t && tr'[|evs'|] == u;
    var all := tr + tr'[1..];
    forall k | 0 <= k < |evs + evs'| ensures Next(all[k], (evs + evs')[k], all[k + 1]) {
      if k >= |evs| { assert all[k] == tr'[k - |evs|] && all[k + 1] == tr'[k - |evs| + 1]; }
    }
    assert IsRun(all, evs + evs');
  }

  /** Environment e is current on two CPUs. */
  predicate OnBoth(s: State, c: nat, d: nat, e: nat) {
    c < |s.cpus| && d < |s.cpus| && c != d && s.cpus[c].cur == e == s.cpus[d].cur
  }

  /** sys_yield to e. */
  function YieldTo(c: nat, e: nat): seq<Event> { [Event(c, YieldNow), Event(c, Schedule(e))] }

  lemma Yielded(s: State, c: nat, e: nat)
    requires Sized(s) && c < |s.cpus| && s.cpus[c].mode == Run && e < NENV && Chosen(s.status, s.cpus[c].cur, e)
    ensures Leads(s, YieldTo(c, e), RunEnv(s, c, e))
  {
    var s1 := SetMode(s, c, Yield);
    assert RunEnv(s1, c, e).cpus == RunEnv(s, c, e).cpus;
    assert IsRun([s, s1, RunEnv(s, c, e)], YieldTo(c, e));
  }

  /** Fork (env_free put the slot of e at the head of the list that env_alloc takes from), and let the
      child run. */
  function Refork(c: nat, e: nat): seq<Event> { [Event(c, Exofork(e)), Event(c, SetStatus(e, RUNNABLE))] }

  lemma Reforked(s: State, c: nat, e: nat)
    requires Sized(s) && c < |s.cpus| && s.cpus[c].mode == Run && e < NENV && s.status[e] == FREE
    ensures Leads(s, Refork(c, e),
                  s.(status := s.status[e := RUNNABLE], ipc := s.ipc[e := s.ipc[e].(recving := false)]))
  {
    var s1 := s.(status := s.status[e := NOT_RUNNABLE], ipc := s.ipc[e := s.ipc[e].(recving := false)]);
    var s2 := s1.(status := s1.status[e := RUNNABLE]);
    assert s2.status == s.status[e := RUNNABLE];
    assert IsRun([s, s1, s2], Refork(c, e));
  }

  /** Destroying a DYING environment loses exclusivity: once CPU c has done it to e, which CPU d still
      runs, legal steps of c make e, now a new environment, current on both. */
  lemma DyingRunsTwice(s: State, c: nat, d: nat, e: nat) returns (s1: State, s': State)
    requires Inv(s) && c < |s.cpus| && d < |s.cpus| && e < NENV
    requires s.cpus[c].mode == Run && s.cpus[c].cur != e && s.cpus[d].cur == e && s.status[e] == DYING
    requires Chosen(s.status[e := RUNNABLE], s.cpus[c].cur, e)
    ensures Step(s, c, Destroy(e)) == Some(s1) && Leads(s1, Refork(c, e) + YieldTo(c, e), s') && OnBoth(s', c, d, e)
  {
    assert CpuOk(s.status, s.cpus[c]);
    s1 := DestroyOther(s, e);
    Reforked(s1, c, e);
    var t := s1.(status := s1.status[e := RUNNABLE], ipc := s1.ipc[e := s1.ipc[e].(recving := false)]);
    assert t.status == s.status[e := RUNNABLE];
    Yielded(t, c, e);
    s' := RunEnv(t, c, e);
    LeadsJoin(s1, Refork(c, e), t, YieldTo(c, e), s');
  }

  lemma OneStep(s: State, c: nat, a: Action, s': State)
    requires Next(s, Event(c, a), s')
    ensures Leads(s, [Event(c, a)], s')
  {
    assert IsRun([s, s'], [Event(c, a)]);
  }

  /** c switches to e and leaves the kernel. */
  function SwitchTo(c: nat, e: nat): seq<Event> { YieldTo(c, e) + [Event(c, Leave)] }

  lemma Switched(s: State, c: nat, e: nat) returns (s': State)
    requires Sized(s) && c < |s.cpus| && e < NENV && s.cpus[c].mode == Run && s.cpus[c].cur != NONE
    requires s.status[s.cpus[c].cur] == RUNNING && s.cpus[c].cur != e && Chosen(s.status, s.cpus[c].cur, e)
    ensures Leads(s, SwitchTo(c, e), s')
    ensures s'.status == s.status[s.cpus[c].cur := RUNNABLE][e := RUNNING] && s'.ipc == s.ipc && !s'.locked
    ensures |s'.cpus| == |s.cpus| && s'.cpus == s.cpus[c := s'.cpus[c]] && s'.cpus[c].cur == e
  {
    Yielded(s, c, e);
    var s1 := RunEnv(s, c, e);
    s' := SetCpu(s1, c, s1.cpus[c].(mode := User, locks := 0)).(locked := false);
    OneStep(s1, c, Leave, s');
    LeadsJoin(s, YieldTo(c, e), s1, [Event(c, Leave)], s');
  }

  /** A trap from user code, up to the lock and past it. */
  function Trap(d: nat): seq<Event> { [Event(d, Interrupt), Event(d, Xchg), Event(d, CheckSpp)] }

  function SendIn(d: nat, e: nat, value: nat): seq<Event> {
    [Event(d, Acquire), Event(d, Collect), Event(d, Send(e, value, 0, NoPage))]
  }

  lemma TrapTaken(s: State, d: nat)
    requires Sized(s) && d < |s.cpus| && s.cpus[d].mode == User && !s.cpus[d].halted
    ensures Leads(s, Trap(d), SetMode(s, d, WaitB))
  {
    var s1, s2, s3 := SetMode(s, d, Trapped(false)), SetMode(s, d, Check(false)), SetMode(s, d, WaitB);
    assert SetCpu(s1, d, s1.cpus[d].(halted := false, mode := Check(false))).cpus == s2.cpus;
    assert SetMode(s2, d, WaitB).cpus == s3.cpus;
    assert IsRun([s, s1, s2, s3], Trap(d));
  }

  lemma SentIn(s: State, d: nat, e: nat, value: nat) returns (s': State)
    requires Sized(s) && d < |s.cpus| && e < NENV && !s.locked && s.cpus[d].mode == WaitB
    requires 0 <= s.cpus[d].cur && s.status[s.cpus[d].cur] == RUNNING && Delivers(s, e, NoPage)
    ensures Leads(s, SendIn(d, e, value), s') && Sized(s') && s'.status == s.status[e := RUNNABLE]
    ensures |s'.cpus| == |s.cpus| && s'.cpus == s.cpus[d := s'.cpus[d]] && s'.cpus[d].mode == Run
    ensures s'.cpus[d].cur == s.cpus[d].cur
  {
    var s1 := SetCpu(s, d, s.cpus[d].(mode := Enter, locks := s.cpus[d].locks + 1)).(locked := true);
    var s2 := SetMode(s1, d, Run);
    s' := Deliver(s2, e, value, s2.cpus[d].cur, 0, NoPage);
    assert IsRun([s, s1, s2, s'], SendIn(d, e, value));
  }

  /** A trap, a send to e and a yield to it. */
  function SendAndYield(d: nat, e: nat, value: nat): seq<Event> { Trap(d) + SendIn(d, e, value) + YieldTo(d, e) }

  lemma SentAndYielded(s: State, d: nat, e: nat, value: nat) returns (s': State)
    requires Sized(s) && d < |s.cpus| && e < NENV && !s.locked && 0 <= s.cpus[d].cur
    requires s.cpus[d].mode == User && !s.cpus[d].halted && s.status[s.cpus[d].cur] == RUNNING
    requires Delivers(s, e, NoPage) && Chosen(s.status[e := RUNNABLE], s.cpus[d].cur, e)
    ensures Leads(s, SendAndYield(d, e, value), s')
    ensures |s'.cpus| == |s.cpus| && s'.cpus == s.cpus[d := s'.cpus[d]] && s'.cpus[d].cur == e
  {
    var s1 := SetMode(s, d, WaitB);
    TrapTaken(s, d);
    var s2 := SentIn(s1, d, e, value);
    LeadsJoin(s, Trap(d), s1, SendIn(d, e, value), s2);
    Yielded(s2, d, e);
    s' := RunEnv(s2, d, e);
    LeadsJoin(s, Trap(d) + SendIn(d, e, value), s2, YieldTo(d, e), s');
  }

  /** Waking a blocked receiver loses exclusivity: once CPU c has done it to e, legal steps run e on c,
      and a send from CPU d makes it run there as well. */
  lemma WokenReceiverRunsTwice(s: State, c: nat, d: nat, e: nat, value: nat) returns (s1: State, s': State)
    requires Inv(s) && c < |s.cpus| && d < |s.cpus| && c != d && e < NENV
    requires s.cpus[c].mode == Run && s.cpus[d].mode == User && s.cpus[d].cur >= 0 && s.status[s.cpus[d].cur] == RUNNING
    requires s.status[e] == NOT_RUNNABLE && s.ipc[e].recving && s.cpus[c].cur >= 0
    requires Chosen(s.status[e := RUNNABLE], s.cpus[c].cur, e)
    requires Chosen(s.status[s.cpus[c].cur := RUNNABLE][e := RUNNABLE], s.cpus[d].cur, e)
    ensures Step(s, c, SetStatus(e, RUNNABLE)) == Some(s1)
    ensures Leads(s1, SwitchTo(c, e) + SendAndYield(d, e, value), s') && OnBoth(s', c, d, e)
  {
    assert CpuOk(s.status, s.cpus[c]) && CpuOk(s.status, s.cpus[d]) && s.cpus[d].cur != s.cpus[c].cur;
    s1 := s.(status := s.status[e := RUNNABLE]);
    var t := Switched(s1, c, e);
    assert t.status[e := RUNNABLE] == s.status[s.cpus[c].cur := RUNNABLE][e := RUNNABLE];
    s' := SentAndYielded(t, d, e, value);
    LeadsJoin(s1, SwitchTo(c, e), t, SendAndYield(d, e, value), s');
  }

  /** Both runs at an input: two CPUs, with environment 0 in the kernel on CPU 0 and 1 on CPU 1. */
  function TwoCpus(last: Status, recving: bool): State {
    State(seq(NENV, i => if i == 0 then RUNNING else if i == 1 then last else if i == 2 then NOT_RUNNABLE else FREE),
          seq(NENV, i => Ipc(recving && i == 2, 0, 0, 0, 0)), [Cpu(Run, 0, false, 1), Cpu(User, 1, false, 0)], true)
  }

  lemma TwoCpusInv(last: Status, recving: bool)
    requires last == RUNNING || last == DYING
    ensures Inv(TwoCpus(last, recving))
  {
    var s := TwoCpus(last, recving);
    assert s.cpus[0].locks > 0 && s.cpus[0].cur == 0 && s.cpus[1].cur == 1;
  }

  lemma DyingExample() returns (s1: State, s': State)
    ensures var s := TwoCpus(DYING, false);
            && Inv(s) && Step(s, 0, Destroy(1)) == Some(s1)
            && Leads(s1, Refork(0, 1) + YieldTo(0, 1), s') && OnBoth(s', 0, 1, 1)
  {
    TwoCpusInv(DYING, false);
    s1, s' := DyingRunsTwice(TwoCpus(DYING, false), 0, 1, 1);
  }

  lemma WokenExample() returns (s1: State, s': State)
    ensures var s := TwoCpus(RUNNING, true);
            && Inv(s) && Step(s, 0, SetStatus(2, RUNNABLE)) == Some(s1)
            && Leads(s1, SwitchTo(0, 2) + SendAndYield(1, 2, 7), s') && OnBoth(s', 0, 1, 2)
  {
    TwoCpusInv(RUNNING, true);
    s1, s' := WokenReceiverRunsTwice(TwoCpus(RUNNING, true), 0, 1, 2, 7);
  }

  /* ---- how long an environment waits ---- */

  function Turn(ev: Event, c: nat): nat { if ev.c == c && ev.a.Schedule? then 1 else 0 }

  /** How often c ran sched_yield in events i to j. */
  function Turns(evs: seq<Event>, c: nat, i: nat, j: nat): nat
    requires j <= |evs|
  {
    if j <= i then 0 else Turns(evs, c, i, j - 1) + Turn(evs[j - 1], c)
  }

  /** t waits, and CPU c has an environment. */
  predicate Waits(s: State, c: nat, t: nat) {
    Sized(s) && c < |s.cpus| && s.cpus[c].cur != NONE && t < NENV && s.status[t] == RUNNABLE
  }

  function Distance(s: State, c: nat, t: nat): nat { if Waits(s, c, t) then Dist(s.cpus[c].cur, t) else 0 }

  lemma ScheduleNearer(s: State, p: int, s': State, c: nat, t: nat)
    requires Inv(s) && Waits(s, c, t) && Step(s, c, Schedule(p)) == Some(s') && Waits(s', c, t)
    ensures Distance(s', c, t) < Distance(s, c, t)
  {
    assert CpuOk(s.status, s.cpus[c]);
    assert p != NONE && s'.cpus[c].cur == p;
    CloserStep(s.status, s.cpus[c].cur, p, t);
  }

  /** Only sched_yield moves a CPU from one environment to another. */
  lemma SameCurrent(s: State, ev: Event, s': State, c: nat)
    requires Sized(s) && c < |s.cpus| && Follows(s, ev, s') && !(ev.c == c && ev.a.Schedule?)
    ensures |s'.cpus| == |s.cpus| && (s'.cpus[c].cur == s.cpus[c].cur || s'.cpus[c].cur == NONE)
  {}

  lemma WaitStep(s: State, ev: Event, s': State, c: nat, t: nat)
    requires Inv(s) && Follows(s, ev, s') && Waits(s, c, t) && Waits(s', c, t)
    ensures Distance(s', c, t) + Turn(ev, c) <= Distance(s, c, t)
  {
    if ev.c == c && ev.a.Schedule? { ScheduleNearer(s, ev.a.p, s', c, t); } else { SameCurrent(s, ev, s', c); }
  }

  lemma WaitersNotCurrent(s: State, c: nat, t: nat)
    requires Inv(s) && Waits(s, c, t)
    ensures 1 <= Distance(s, c, t) <= NENV - 1
  {
    assert CpuOk(s.status, s.cpus[c]);
  }

  lemma WaitNext(tr: seq<State>, evs: seq<Event>, k: nat, c: nat, t: nat)
    requires IsRun(tr, evs) && Init(tr[0]) && k + 1 < |tr| && Waits(tr[k], c, t) && Waits(tr[k + 1], c, t)
    ensures Distance(tr[k + 1], c, t) + Turn(evs[k], c) <= Distance(tr[k], c, t)
  {
    RunInv(tr, evs, k);
    assert Next(tr[k], evs[k], tr[k + 1]);
    WaitStep(tr[k], evs[k], tr[k + 1], c, t);
  }

  lemma {:induction false} TurnsNearer(evs: seq<Event>, ds: seq<nat>, c: nat, i: nat, j: nat)
    requires i <= j <= |evs| && |ds| == |evs| + 1
    requires forall k :: i <= k < j ==> ds[k + 1] + Turn(evs[k], c) <= ds[k]
    ensures Turns(evs, c, i, j) + ds[j] <= ds[i]
    decreases j
  {
    if i < j { TurnsNearer(evs, ds, c, i, j - 1); }
  }

  /** Bounded waiting over every run: while t stays RUNNABLE, a CPU that has an environment all along
      runs sched_yield at most NENV - 2 times without choosing it. */
  lemma BoundedWaitingRun(tr: seq<State>, evs: seq<Event>, i: nat, j: nat, c: nat, t: nat)
    requires IsRun(tr, evs) && Init(tr[0]) && i <= j < |tr|
    requires forall k :: i <= k <= j ==> Waits(tr[k], c, t)
    ensures Turns(evs, c, i, j) <= NENV - 2
  {
    var ds := seq(|tr|, k requires 0 <= k < |tr| => Distance(tr[k], c, t));
    forall k | i <= k < j ensures ds[k + 1] + Turn(evs[k], c) <= ds[k] {
      assert Waits(tr[k], c, t) && Waits(tr[k + 1], c, t);
      WaitNext(tr, evs, k, c, t);
    }
    TurnsNearer(evs, ds, c, i, j);
    RunInv(tr, evs, i);
    RunInv(tr, evs, j);
    assert Waits(tr[i], c, t) && Waits(tr[j], c, t);
    WaitersNotCurrent(tr[i], c, t);
    WaitersNotCurrent(tr[j], c, t);
  }

  /** One CPU, environment a in the kernel and t waiting. */
  function Rounds(a: nat, t: nat): State {
    State(seq(NENV, i => if i == a then RUNNING else if i == t then RUNNABLE else FREE),
          seq(NENV, _ => Ipc(false, 0, 0, 0, 0)), [Cpu(Run, a, false, 1)], true)
  }

  /** a forks b, which is made runnable, and exits. */
  function Succeed(a: nat, b: nat): seq<Event> {
    [Event(0, Exofork(b)), Event(0, SetStatus(b, RUNNABLE)), Event(0, Destroy(a))]
  }

  function Resume(b: nat): seq<Event> { [Event(0, Schedule(b)), Event(0, Leave)] }

  function Reenter(): seq<Event> { [Event(0, Acquire), Event(0, Collect)] }

  function Round(a: nat, b: nat): seq<Event> { Succeed(a, b) + Resume(b) + Trap(0) + Reenter() }

  lemma Succeeded(a: nat, b: nat, t: nat)
    requires a < 2 && b == 1 - a && 2 <= t < NENV
    ensures Leads(Rounds(a, t), Succeed(a, b),
                  Rounds(a, t).(status := Rounds(b, t).status[b := RUNNABLE], cpus := [Cpu(Yield, NONE, false, 1)]))
  {
    var s := Rounds(a, t);
    var s1 := s.(status := s.status[b := NOT_RUNNABLE]);
    var s2 := s.(status := s.status[b := RUNNABLE]);
    var s3 := s.(status := Rounds(b, t).status[b := RUNNABLE], cpus := [Cpu(Yield, NONE, false, 1)]);
    assert s.ipc[b := s.ipc[b].(recving := false)] == s.ipc && s1.status[b := RUNNABLE] == s2.status;
    assert s2.status[a := FREE] == s3.status && s2.cpus[0 := Cpu(Yield, NONE, false, 1)] == s3.cpus;
    assert IsRun([s, s1, s2, s3], Succeed(a, b));
  }

  lemma Resumed(a: nat, b: nat, t: nat)
    requires a < 2 && b == 1 - a && 2 <= t < NENV
    ensures Leads(Rounds(a, t).(status := Rounds(b, t).status[b := RUNNABLE], cpus := [Cpu(Yield, NONE, false, 1)]),
                  Resume(b), Rounds(b, t).(cpus := [Cpu(User, b, false, 0)], locked := false))
  {
    var s := Rounds(a, t).(status := Rounds(b, t).status[b := RUNNABLE], cpus := [Cpu(Yield, NONE, false, 1)]);
    var s1 := Rounds(b, t).(cpus := [Cpu(ExitUser, b, false, 1)]);
    var s2 := Rounds(b, t).(cpus := [Cpu(User, b, false, 0)], locked := false);
    assert Chosen(s.status, NONE, b);
    assert s.status[b := RUNNING] == s1.status;
    assert s.cpus[0 := s1.cpus[0]] == s1.cpus && s1.cpus[0 := s2.cpus[0]] == s2.cpus;
    assert IsRun([s, s1, s2], Resume(b));
  }

  lemma Reentered(b: nat, t: nat)
    requires b < 2 <= t < NENV
    ensures Leads(Rounds(b, t).(cpus := [Cpu(WaitB, b, false, 0)], locked := false), Reenter(), Rounds(b, t))
  {
    var s := Rounds(b, t).(cpus := [Cpu(WaitB, b, false, 0)], locked := false);
    var s1, s2 := Rounds(b, t).(cpus := [Cpu(Enter, b, false, 1)]), Rounds(b, t);
    assert s.cpus[0 := s1.cpus[0]] == s1.cpus && s1.cpus[0 := s2.cpus[0]] == s2.cpus;
    assert IsRun([s, s1, s2], Reenter());
  }

  lemma RoundTurns(a: nat, b: nat, t: nat)
    requires a < 2 && b == 1 - a && 2 <= t < NENV
    ensures Leads(Rounds(a, t), Round(a, b), Rounds(b, t))
  {
    var s0, s4 := Rounds(a, t), Rounds(b, t);
    var s1 := s0.(status := s4.status[b := RUNNABLE], cpus := [Cpu(Yield, NONE, false, 1)]);
    var s2 := s4.(cpus := [Cpu(User, b, false, 0)], locked := false);
    var s3 := s4.(cpus := [Cpu(WaitB, b, false, 0)], locked := false);
    Succeeded(a, b, t);
    Resumed(a, b, t);
    LeadsJoin(s0, Succeed(a, b), s1, Resume(b), s2);
    TrapTaken(s2, 0);
    assert SetMode(s2, 0, WaitB).cpus == s3.cpus;
    LeadsJoin(s0, Succeed(a, b) + Resume(b), s2, Trap(0), s3);
    Reentered(b, t);
    LeadsJoin(s0, Succeed(a, b) + Resume(b) + Trap(0), s3, Reenter(), s4);
  }

  function ManyRounds(a: nat, n: nat): seq<Event>
    requires a < 2
    decreases n
  {
    if n == 0 then [] else Round(a, 1 - a) + ManyRounds(1 - a, n - 1)
  }

  lemma {:induction false} TurnsSplit(evs: seq<Event>, evs': seq<Event>, c: nat, j: nat)
    requires j <= |evs'|
    ensures Turns(evs + evs', c, 0, |evs| + j) == Turns(evs, c, 0, |evs|) + Turns(evs', c, 0, j)
    decreases j
  {
    if j == 0 { TurnsPrefix(evs, evs', c, |evs|); } else { TurnsSplit(evs, evs', c, j - 1); }
  }

  lemma {:induction false} TurnsPrefix(evs: seq<Event>, evs': seq<Event>, c: nat, j: nat)
    requires j <= |evs|
    ensures Turns(evs + evs', c, 0, j) == Turns(evs, c, 0, j)
  {
    if j > 0 { TurnsPrefix(evs, evs', c, j - 1); }
  }

  lemma OneTurn(a: nat, b: nat)
    ensures Turns(Round(a, b), 0, 0, |Round(a, b)|) == 1
  {
    TurnsSplit(Succeed(a, b) + Resume(b) + Trap(0), Reenter(), 0, 2);
    TurnsSplit(Succeed(a, b) + Resume(b), Trap(0), 0, 3);
    TurnsSplit(Succeed(a, b), Resume(b), 0, 2);
    assert Turns(Succeed(a, b), 0, 0, 1) == 0 && Turns(Trap(0), 0, 0, 1) == 0;
    assert Turns(Resume(b), 0, 0, 1) == 1 && Turns(Reenter(), 0, 0, 1) == 0;
  }

  /** sched_yield runs n times in n rounds. */
  lemma {:induction false} ManyTurns(a: nat, n: nat)
    requires a < 2
    ensures Turns(ManyRounds(a, n), 0, 0, |ManyRounds(a, n)|) == n
    decreases n
  {
    if n > 0 {
      ManyTurns(1 - a, n - 1);
      TurnsSplit(Round(a, 1 - a), ManyRounds(1 - a, n - 1), 0, |ManyRounds(1 - a, n - 1)|);
      OneTurn(a, 1 - a);
    }
  }

  lemma {:induction false} RoundsLead(a: nat, t: nat, n: nat)
    requires a < 2 <= t < NENV
    ensures Leads(Rounds(a, t), ManyRounds(a, n), Rounds((a + n) % 2, t))
    decreases n
  {
    if n == 0 {
      assert IsRun([Rounds(a, t)], []);
    } else {
      RoundsLead(1 - a, t, n - 1);
      RoundTurns(a, 1 - a, t);
      assert (1 - a + n - 1) % 2 == (a + n) % 2;
      LeadsJoin(Rounds(a, t), Round(a, 1 - a), Rounds(1 - a, t), ManyRounds(1 - a, n - 1), Rounds((a + n) % 2, t));
    }
  }

  /** One CPU at boot, with environments 0 and t. */
  function AtBoot(t: nat): State {
    Rounds(0, t).(status := Rounds(0, t).status[0 := RUNNABLE], cpus := [Cpu(Yield, NONE, false, 1)])
  }

  function FirstEntry(): seq<Event> { Resume(0) + Trap(0) + Reenter() }

  lemma Booted(t: nat)
    requires 2 <= t < NENV
    ensures Init(AtBoot(t)) && Leads(AtBoot(t), FirstEntry(), Rounds(0, t))
  {
    var s0, s4 := AtBoot(t), Rounds(0, t);
    var s2 := s4.(cpus := [Cpu(User, 0, false, 0)], locked := false);
    var s3 := s4.(cpus := [Cpu(WaitB, 0, false, 0)], locked := false);
    Resumed(1, 0, t);
    assert Rounds(1, t).(status := s4.status[0 := RUNNABLE], cpus := [Cpu(Yield, NONE, false, 1)]) == s0;
    TrapTaken(s2, 0);
    assert SetMode(s2, 0, WaitB).cpus == s3.cpus;
    LeadsJoin(s0, Resume(0), s2, Trap(0), s3);
    Reentered(0, t);
    LeadsJoin(s0, Resume(0) + Trap(0), s3, Reenter(), s4);
  }

  /** The condition on the CPU is needed: when the current environment has just exited, the search
      starts at slot 0, and from boot on two environments that fork each other and exit keep t waiting
      through any number n of turns. */
  lemma StarvedWithoutCurrent(t: nat, n: nat)
    requires 2 <= t < NENV
    ensures Init(AtBoot(t)) && Leads(AtBoot(t), FirstEntry() + ManyRounds(0, n), Rounds((0 + n) % 2, t))
  {
    Booted(t);
    RoundsLead(0, t, n);
    LeadsJoin(AtBoot(t), FirstEntry(), Rounds(0, t), ManyRounds(0, n), Rounds((0 + n) % 2, t));
  }

  lemma RoundsInv(a: nat, t: nat)
    requires a < 2 <= t < NENV
    ensures Inv(Rounds(a, t)) && Rounds(a, t).status[t] == RUNNABLE
  {
    assert Rounds(a, t).cpus[0].locks > 0 && Rounds(a, t).cpus[0].cur == a;
  }

  /* ---- exactly-once delivery ---- */

  /** Event k is a receive by environment e that was not rejected. */
  predicate Receives(tr: seq<State>, evs: seq<Event>, e: nat, k: nat)
    requires k < |evs| && k < |tr|
  {
    evs[k].a.Recv? && evs[k].c < |tr[k].cpus| && tr[k].cpus[evs[k].c].cur == e && !Misaligned(evs[k].a.dstva)
  }

  /** Event ev is a send to e that succeeds in s. */
  predicate SendsTo(s: State, ev: Event, e: nat) {
    ev.a.Send? && ev.a.e == e && e < |s.status| == |s.ipc| && Delivers(s, e, ev.a.page)
  }

  lemma StepSized(s: State, c: nat, a: Action)
    requires Sized(s) && c < |s.cpus| && Step(s, c, a).Some?
    ensures Sized(Step(s, c, a).value)
  {
    var s' := Step(s, c, a).value;
    assert forall d :: 0 <= d < |s.cpus| && d != c ==> s'.cpus[d] == s.cpus[d];
  }

  lemma IpcStep(s: State, ev: Event, s': State, e: nat)
    requires Next(s, ev, s') && e < NENV
    requires !(ev.a.Recv? && s.cpus[ev.c].cur == e && !Misaligned(ev.a.dstva))
    ensures Sized(s')
    ensures !s.ipc[e].recving ==> s'.ipc[e] == s.ipc[e] && !SendsTo(s, ev, e)
    ensures SendsTo(s, ev, e) ==>
              s'.ipc[e] == Ipc(false, s.ipc[e].dstva, ev.a.value, s.cpus[ev.c].cur,
                               if ev.a.page == Sent then ev.a.perm else 0)
  {
    StepSized(s, ev.c, ev.a);
  }

  lemma {:induction false} IpcFrozen(tr: seq<State>, evs: seq<Event>, e: nat, i: nat, j: nat)
    requires IsRun(tr, evs) && e < NENV && i <= j < |tr| && Sized(tr[i]) && !tr[i].ipc[e].recving
    requires forall k :: i <= k < j ==> !Receives(tr, evs, e, k)
    ensures Sized(tr[j]) && tr[j].ipc[e] == tr[i].ipc[e]
    decreases j - i
  {
    if i < j {
      IpcFrozen(tr, evs, e, i, j - 1);
      assert Next(tr[j - 1], evs[j - 1], tr[j]) && !Receives(tr, evs, e, j - 1);
      IpcStep(tr[j - 1], evs[j - 1], tr[j], e);
    }
  }

  /** IPC exactly-once: a send that succeeds is the only one until e's next receive, and
      until then e's IPC fields are those of that send, whatever else happens. */
  lemma DeliveredOnce(tr: seq<State>, evs: seq<Event>, e: nat, k: nat, j: nat)
    requires IsRun(tr, evs) && e < NENV && k < j < |tr| && SendsTo(tr[k], evs[k], e)
    requires forall x :: k < x < j ==> !Receives(tr, evs, e, x)
    ensures Sized(tr[k]) && Sized(tr[j]) && evs[k].c < |tr[k].cpus|
    ensures var a := evs[k].a;
            tr[j].ipc[e] == Ipc(false, tr[k].ipc[e].dstva, a.value, tr[k].cpus[evs[k].c].cur,
                                if a.page == Sent then a.perm else 0)
    ensures forall x :: k < x < j ==> !SendsTo(tr[x], evs[x], e)
  {
    assert Next(tr[k], evs[k], tr[k + 1]);
    IpcStep(tr[k], evs[k], tr[k + 1], e);
    IpcFrozen(tr, evs, e, k + 1, j);
    forall x | k < x < j ensures !SendsTo(tr[x], evs[x], e) {
      IpcFrozen(tr, evs, e, k + 1, x);
      assert Next(tr[x], evs[x], tr[x + 1]) && !Receives(tr, evs, e, x);
      IpcStep(tr[x], evs[x], tr[x + 1], e);
    }
  }

  /** A send that fails changes nothing; one to an environment that is not receiving fails. */
  lemma SendChangesIff(s: State, ev: Event, s': State)
    requires Inv(s) && Follows(s, ev, s') && ev.a.Send? && ev.a.e < NENV
    ensures s' != s <==> SendsTo(s, ev, ev.a.e)
  {
    var e := ev.a.e;
    if SendsTo(s, ev, e) { assert s'.ipc[e].recving != s.ipc[e].recving; }
  }
}
