/** How a pipe notices that its other end is closed: by comparing reference counts.

    A descriptor is two pages, the fd page and the pipe's data page.  On one CPU a process
    can lose the processor between any two system calls, and its env_runs counter tells
    it afterwards.  close unmaps the fd page first and dup maps it last. */
module PipeClose {

  datatype End = ReadEnd | WriteEnd

  function Other(e: End): End { if e == ReadEnd then WriteEnd else ReadEnd }

  datatype Desc = Desc(proc: nat, end: End, fd: bool, data: bool)

  /** Where a process is inside close or dup. */
  datatype Pc = Idle | CloseData(d: nat) | DupFd(src: nat, dst: nat)

  /** The loop of _pipeisclosed in process `q`: env_runs, then pageref(fd), then
      pageref(p), then env_runs again. */
  datatype Test = NotTesting | GotRuns(n: nat) | GotFd(n: nat, rfd: nat) | GotBoth(n: nat, ret: bool)

  /** `cur` is the process on the CPU; q tests descriptor end `mine`. */
  datatype Sys =
    Sys(descs: map<nat, Desc>, pc: map<nat, Pc>, cur: nat, runs: map<nat, nat>, q: nat, mine: End, test: Test)

  function Fds(s: Sys, e: End): set<nat> { set d | d in s.descs && s.descs[d].fd && s.descs[d].end == e }
  function Datas(s: Sys): set<nat> { set d | d in s.descs && s.descs[d].data }

  datatype Action =
    | Switch(p: nat)
    | Close1(d: nat) | Close2 | Dup1(src: nat, dst: nat) | Dup2 | DupFail
    | Fork(child: nat, copies: map<nat, nat>)
    | Test1 | Test2 | Test3 | Test4

  predicate Mine(s: Sys, d: nat) { d in s.descs && s.descs[d].proc == s.cur }

  /** One step of the current process, or a context switch. */
  ghost predicate Next(s: Sys, a: Action, s': Sys) {
    && s.cur in s.pc && s.cur in s.runs
    && (match a
       case Switch(p) =>
         p in s.pc && p in s.runs && p != s.cur && s' == s.(cur := p, runs := s.runs[p := s.runs[p] + 1])
       case Close1(d) =>
         s.pc[s.cur] == Idle && Mine(s, d) && s.descs[d].fd
         && s' == s.(descs := s.descs[d := s.descs[d].(fd := false)], pc := s.pc[s.cur := CloseData(d)])
       case Close2 =>
         s.pc[s.cur].CloseData? && s.pc[s.cur].d in s.descs
         && s' == s.(descs := s.descs - {s.pc[s.cur].d}, pc := s.pc[s.cur := Idle])
       case Dup1(src, dst) =>
         s.pc[s.cur] == Idle && Mine(s, src) && s.descs[src].fd && s.descs[src].data && dst !in s.descs
         && s' == s.(descs := s.descs[dst := Desc(s.cur, s.descs[src].end, false, true)],
                     pc := s.pc[s.cur := DupFd(src, dst)])
       case Dup2 =>
         s.pc[s.cur].DupFd? && s.pc[s.cur].dst in s.descs
         && s' == s.(descs := s.descs[s.pc[s.cur].dst := s.descs[s.pc[s.cur].dst].(fd := true)],
                     pc := s.pc[s.cur := Idle])
       case DupFail =>
         s.pc[s.cur].DupFd? && s.pc[s.cur].dst in s.descs
         && s' == s.(descs := s.descs - {s.pc[s.cur].dst}, pc := s.pc[s.cur := Idle])
       case Fork(child, copies) =>
         && s.pc[s.cur] == Idle && child !in s.pc && child !in s.runs
         && (forall d :: d in copies ==> d !in s.descs && Mine(s, copies[d]))
         && s' == s.(descs := s.descs + (map d | d in copies :: s.descs[copies[d]].(proc := child)),
                     pc := s.pc[child := Idle], runs := s.runs[child := 0])
       case Test1 =>
         && s.cur == s.q && s.pc[s.cur] == Idle && s.test == NotTesting
         && s' == s.(test := GotRuns(s.runs[s.q]))
       case Test2 => s.cur == s.q && s.test.GotRuns? && s' == s.(test := GotFd(s.test.n, |Fds(s, s.mine)|))
       case Test3 => s.cur == s.q && s.test.GotFd? && s' == s.(test := GotBoth(s.test.n, s.test.rfd == |Datas(s)|))
       case Test4 => s.cur == s.q && s.test.GotBoth? && s' == s.(test := NotTesting))
    // while it tests, q does nothing else
    && (s.cur == s.q && s.test != NotTesting ==> a.Switch? || a.Test2? || a.Test3? || a.Test4?)
  }

  /** The answer given when the two readings of env_runs agree. */
  predicate Answers(s: Sys, closed: bool) {
    s.cur == s.q && s.q in s.runs && s.test.GotBoth? && s.test.n == s.runs[s.q] && s.test.ret == closed
  }

  ghost predicate Inv(s: Sys) {
    && (forall d :: d in s.descs && s.descs[d].fd ==> s.descs[d].data)
    && (forall p :: p in s.pc ==> PcOk(s, p))
    && (s.test != NotTesting ==> s.q in s.runs && s.q in s.pc && s.test.n <= s.runs[s.q])
    // a count is current as long as q has not been off the CPU since it was read
    && (s.test.GotFd? && s.cur == s.q && s.test.n == s.runs[s.q] ==> s.test.rfd == |Fds(s, s.mine)|)
    && (s.test.GotBoth? && s.cur == s.q && s.test.n == s.runs[s.q] ==> (s.test.ret <==> |Fds(s, s.mine)| == |Datas(s)|))
  }

  predicate PcOk(s: Sys, p: nat)
    requires p in s.pc
  {
    match s.pc[p]
    case Idle => true
    case CloseData(d) => d in s.descs && s.descs[d].proc == p && !s.descs[d].fd
    case DupFd(src, dst) =>
      && src in s.descs && s.descs[src].proc == p && s.descs[src].fd
      && dst in s.descs && s.descs[dst].proc == p && !s.descs[dst].fd && s.descs[dst].data
      && s.descs[dst].end == s.descs[src].end
  }

  lemma StepKeepsPcs(s: Sys, a: Action, s': Sys)
    requires Inv(s) && Next(s, a, s')
    ensures forall d :: d in s'.descs && s'.descs[d].fd ==> s'.descs[d].data
    ensures forall p :: p in s'.pc ==> PcOk(s', p)
  {
    assert PcOk(s, s.cur);
    forall p | p in s'.pc ensures PcOk(s', p) {
      if p in s.pc { assert PcOk(s, p); }
    }
  }

  lemma StepKeepsTest(s: Sys, a: Action, s': Sys)
    requires Inv(s) && Next(s, a, s')
    ensures s'.test != NotTesting ==> s'.q in s'.runs && s'.q in s'.pc && s'.test.n <= s'.runs[s'.q]
    ensures s'.test.GotFd? && s'.cur == s'.q && s'.test.n == s'.runs[s'.q] ==> s'.test.rfd == |Fds(s', s'.mine)|
    ensures s'.test.GotBoth? && s'.cur == s'.q && s'.test.n == s'.runs[s'.q] ==>
      (s'.test.ret <==> |Fds(s', s'.mine)| == |Datas(s')|)
  {}

  lemma StepKeeps(s: Sys, a: Action, s': Sys)
    requires Inv(s) && Next(s, a, s')
    ensures Inv(s')
  {
    StepKeepsPcs(s, a, s');
    StepKeepsTest(s, a, s');
  }

  /** The count that matters: the pipe page has at least one reference per fd page. */
  lemma PipeRefsCover(s: Sys)
    requires Inv(s)
    ensures |Datas(s)| >= |Fds(s, ReadEnd)| + |Fds(s, WriteEnd)|
  {
    var r, w := Fds(s, ReadEnd), Fds(s, WriteEnd);
    assert r !! w;
    assert r + w <= Datas(s);
    SubsetSize(r + w, Datas(s));
  }

  lemma {:induction false} SubsetSize<T>(a: set<T>, b: set<T>)
    requires a <= b
    ensures |a| <= |b|
  {
    assert b == a + (b - a);
    assert |b| == |a| + |b - a|;
  }

  /* ---- whole runs ---- */

  /** After pipe(): one process, both ends open, nothing in progress.  The tester q is any
      process, there already or forked later. */
  ghost predicate Init(s: Sys) {
    && s.pc == map[s.cur := Idle] && s.cur in s.runs && s.test == NotTesting
    && forall d :: d in s.descs ==> s.descs[d].fd && s.descs[d].data && s.descs[d].proc == s.cur
  }

  ghost predicate IsRun(tr: seq<Sys>, acts: seq<Action>) {
    |tr| == |acts| + 1 && forall k :: 0 <= k < |acts| ==> Next(tr[k], acts[k], tr[k + 1])
  }

  lemma {:induction false} RunInv(tr: seq<Sys>, acts: seq<Action>, k: nat)
    requires IsRun(tr, acts) && Init(tr[0]) && k < |tr|
    ensures Inv(tr[k])
  {
    if k > 0 {
      RunInv(tr, acts, k - 1);
      StepKeeps(tr[k - 1], acts[k - 1], tr[k]);
    }
  }

  /** The answer _pipeisclosed gives, exactly: under every interleaving of close, dup and fork
      by any number of processes, and whichever of them asks, "closed" comes if and only if every
      reference to the pipe belongs to a descriptor of the asking end. */
  lemma ClosedIff(tr: seq<Sys>, acts: seq<Action>, k: nat, closed: bool)
    requires IsRun(tr, acts) && Init(tr[0]) && k < |tr| && Answers(tr[k], closed)
    ensures closed <==> Datas(tr[k]) == Fds(tr[k], tr[k].mine)
  {
    RunInv(tr, acts, k);
    var mine, all := Fds(tr[k], tr[k].mine), Datas(tr[k]);
    assert mine <= all;
    if |mine| == |all| && mine != all { SubsetSize(mine, all); assert |all - mine| == |all| - |mine|; }
  }

  /** Pipe-closed soundness: "closed" is only answered when no process has a descriptor for the
      other end. */
  lemma ClosedIsSound(tr: seq<Sys>, acts: seq<Action>, k: nat)
    requires IsRun(tr, acts) && Init(tr[0]) && k < |tr| && Answers(tr[k], true)
    ensures Fds(tr[k], Other(tr[k].mine)) == {}
  {
    RunInv(tr, acts, k);
    PipeRefsCover(tr[k]);
    assert |Fds(tr[k], Other(tr[k].mine))| == 0;
  }

  lemma ClosedStays(s: Sys, a: Action, s': Sys, e: End)
    requires Inv(s) && Next(s, a, s') && Fds(s, e) == {}
    ensures Fds(s', e) == {}
  {
    assert PcOk(s, s.cur);
    forall d | d in s'.descs && s'.descs[d].fd ensures s'.descs[d].end != e {
      if a.Fork? && d in a.copies {
        assert a.copies[d] !in Fds(s, e);
      } else if a.Dup2? && d == s.pc[s.cur].dst {
        assert s.pc[s.cur].src !in Fds(s, e);
      } else {
        assert d !in Fds(s, e);
      }
    }
  }

  /** An end that nobody holds is never held again, so "closed" stays true. */
  lemma {:induction false} ClosedForever(tr: seq<Sys>, acts: seq<Action>, j: nat, k: nat, e: End)
    requires IsRun(tr, acts) && Init(tr[0]) && j <= k < |tr| && Fds(tr[j], e) == {}
    ensures Fds(tr[k], e) == {}
    decreases k - j
  {
    if j < k {
      ClosedForever(tr, acts, j, k - 1, e);
      RunInv(tr, acts, k - 1);
      ClosedStays(tr[k - 1], acts[k - 1], tr[k], e);
    }
  }

  /** The order matters: if the last writer unmapped its data page before its fd page, then in
      between the counts would agree, and readers see the pipe closed, with the writer still there. */
  lemma WrongOrderMisleads(s: Sys, d: nat)
    requires Inv(s) && Fds(s, WriteEnd) == {d} && Datas(s) == Fds(s, ReadEnd) + {d}
    ensures d in s.descs
    ensures var s' := s.(descs := s.descs[d := s.descs[d].(data := false)]);
            |Fds(s', ReadEnd)| == |Datas(s')| && Fds(s', WriteEnd) == {d}
  {
    assert d in Fds(s, WriteEnd);
    var s' := s.(descs := s.descs[d := s.descs[d].(data := false)]);
    assert Fds(s', WriteEnd) == Fds(s, WriteEnd);
    assert Fds(s', ReadEnd) == Fds(s, ReadEnd);
    assert Datas(s') == Datas(s) - {d} == Fds(s, ReadEnd);
  }
}
