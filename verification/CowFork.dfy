/** Copy-on-write fork is indistinguishable from copying memory.

    Address spaces map page numbers to entries over shared physical frames.  The meaning
    of a space is what its environment sees: its own bytes for private pages, and a
    common frame for PTE_SHARE pages.  On that meaning fork is a plain copy. */
module CowFork {
  import opened Options
  import Sv48

  const PGSIZE: nat := Sv48.PGSIZE
  const NPDE: nat := 1024
  /** USTACKTOP / PGSIZE, PGNUM(UTEMP) and PGNUM(UXSTACKTOP - PGSIZE). */
  const LIMIT: nat := 0xeebfe
  const UTEMP: nat := 0x400
  const UXSTACK: nat := 0xeebff

  type byte = bv8

  /** A present entry; `mark` is the remaining user bit, 0x200 in PTE_AVAIL. */
  datatype Pte = Pte(frame: nat, w: bool, cow: bool, share: bool, mark: bool)

  type Space = map<nat, Pte>

  /** `next` is the next frame sys_page_alloc hands out. */
  datatype State = State(mem: map<nat, seq<byte>>, spaces: map<nat, Space>, next: nat)

  /* ---- the system calls ---- */

  function ZeroPage(): (z: seq<byte>)
    ensures |z| == PGSIZE
  {
    seq(PGSIZE, _ => 0)
  }

  function SetPte(st: State, e: nat, v: nat, pte: Pte): State
    requires e in st.spaces
  {
    var s: Space := st.spaces[e];
    st.(spaces := st.spaces[e := s[v := pte]])
  }

  /** sys_page_alloc with PTE_P | PTE_U | PTE_W: a fresh zeroed frame. */
  function PageAlloc(st: State, e: nat, v: nat): State
    requires e in st.spaces
  {
    var st1 := st.(mem := st.mem[st.next := ZeroPage()], next := st.next + 1);
    SetPte(st1, e, v, Pte(st.next, true, false, false, false))
  }

  function PageUnmap(st: State, e: nat, v: nat): State
    requires e in st.spaces
  {
    st.(spaces := st.spaces[e := st.spaces[e] - {v}])
  }

  /* ---- fork and its fault handler, as values ---- */

  function CowPte(pte: Pte): Pte { Pte(pte.frame, false, true, false, false) }

  /** The entry duppage leaves in the parent, and the one it gives the child. */
  function ParentPte(pte: Pte): Pte { if !pte.share && (pte.w || pte.cow) then CowPte(pte) else pte }
  function ChildPte(pte: Pte): Pte { ParentPte(pte) }

  /** The two spaces once duppage has treated the parent's pages below n. */
  function ParentSpace(s: Space, n: nat): Space { map v | v in s :: if v < n then ParentPte(s[v]) else s[v] }
  function ChildSpace(s: Space, n: nat): Space { map v | v in s && v < n :: ChildPte(s[v]) }

  function Duplicated(st: State, p: nat, c: nat, n: nat): State
    requires p in st.spaces
  {
    st.(spaces := st.spaces[p := ParentSpace(st.spaces[p], n)][c := ChildSpace(st.spaces[p], n)])
  }

  /** fork: both spaces up to USTACKTOP, then the child's exception stack. */
  function Forked(st: State, p: nat, c: nat): State
    requires p in st.spaces && p != c
  {
    PageAlloc(Duplicated(st, p, c, LIMIT), c, UXSTACK)
  }

  /** pgfault on a copy-on-write page: a private writable copy, built at UTEMP. */
  function Faulted(st: State, e: nat, v: nat): State
    requires e in st.spaces && v in st.spaces[e] && st.spaces[e][v].frame in st.mem && v != UTEMP
  {
    var st1 := PageAlloc(st, e, UTEMP);
    var st2 := st1.(mem := st1.mem[st.next := st.mem[st.spaces[e][v].frame]]);
    var st3 := SetPte(st2, e, v, Pte(st.next, true, false, false, false));
    PageUnmap(st3, e, UTEMP)
  }

  /* ---- the invariant ---- */

  predicate PteOk(st: State, shared: set<nat>, pte: Pte) {
    && pte.frame in st.mem && pte.frame < st.next
    && (pte.share <==> pte.frame in shared) && (pte.share ==> !pte.cow)
  }

  /** A frame someone may write in place, other than a PTE_SHARE frame, has one mapping. */
  ghost predicate Sole(st: State, e: nat, v: nat)
    requires e in st.spaces && v in st.spaces[e]
  {
    st.spaces[e][v].w && !st.spaces[e][v].share ==>
      forall x, u :: x in st.spaces && u in st.spaces[x] && (x != e || u != v) ==>
        st.spaces[x][u].frame != st.spaces[e][v].frame
  }

  ghost predicate Inv(st: State, shared: set<nat>) {
    && (forall f :: f in st.mem ==> |st.mem[f]| == PGSIZE && f < st.next)
    && (forall e, v :: e in st.spaces && v in st.spaces[e] ==> PteOk(st, shared, st.spaces[e][v]))
    && (forall e, v :: e in st.spaces && v in st.spaces[e] ==> Sole(st, e, v))
    && (forall e :: e in st.spaces ==> UTEMP !in st.spaces[e])
    && (forall f :: f in shared ==> f in st.mem && f < st.next)
  }

  /* ---- what environments see ---- */

  datatype Page = Private(bytes: seq<byte>, writable: bool) | Shared(frame: nat, writable: bool)

  /** The reference model: bytes per environment, and the common pages. */
  datatype Ref = Ref(spaces: map<nat, map<nat, Page>>, shared: map<nat, seq<byte>>)

  function See(mem: map<nat, seq<byte>>, pte: Pte): Page
    requires pte.frame in mem
  {
    if pte.share then Shared(pte.frame, pte.w) else Private(mem[pte.frame], pte.w || pte.cow)
  }

  ghost function Abs(st: State, shared: set<nat>): Ref
    requires Inv(st, shared)
  {
    Ref(map e | e in st.spaces :: map v | v in st.spaces[e] && v < LIMIT :: See(st.mem, st.spaces[e][v]),
        map f | f in shared :: st.mem[f])
  }

  lemma AbsAt(st: State, shared: set<nat>, e: nat, v: nat)
    requires Inv(st, shared) && e in st.spaces
    ensures e in Abs(st, shared).spaces
    ensures v in Abs(st, shared).spaces[e] <==> v in st.spaces[e] && v < LIMIT
    ensures v in Abs(st, shared).spaces[e] ==>
      PteOk(st, shared, st.spaces[e][v]) && Abs(st, shared).spaces[e][v] == See(st.mem, st.spaces[e][v])
  {
    if v in st.spaces[e] { assert PteOk(st, shared, st.spaces[e][v]); }
  }

  /** Eager fork: the child gets the parent's bytes. */
  function RefFork(r: Ref, p: nat, c: nat): Ref
    requires p in r.spaces
  {
    r.(spaces := r.spaces[c := r.spaces[p]])
  }

  ghost predicate RefOk(r: Ref) {
    && (forall x, u :: x in r.spaces && u in r.spaces[x] ==> RefPageOk(r, r.spaces[x][u]))
    && (forall f :: f in r.shared ==> |r.shared[f]| == PGSIZE)
  }

  predicate RefPageOk(r: Ref, page: Page) {
    match page
    case Private(bytes, _) => |bytes| == PGSIZE
    case Shared(f, _) => f in r.shared
  }

  /** A store in the reference model; None is a panic in the fault handler. */
  ghost function RefWrite(r: Ref, e: nat, v: nat, off: nat, b: byte): Option<Ref>
    requires off < PGSIZE && RefOk(r)
  {
    if e !in r.spaces || v !in r.spaces[e] || !r.spaces[e][v].writable then None
    else
      var space: map<nat, Page> := r.spaces[e];
      assert RefPageOk(r, space[v]);
      match space[v]
      case Private(bytes, w) => Some(r.(spaces := r.spaces[e := space[v := Private(bytes[off := b], w)]]))
      case Shared(f, _) => Some(r.(shared := r.shared[f := r.shared[f][off := b]]))
  }

  /** The byte environment e reads at offset off of page v. */
  ghost function RefRead(r: Ref, e: nat, v: nat, off: nat): Option<byte>
    requires off < PGSIZE && RefOk(r)
  {
    if e !in r.spaces || v !in r.spaces[e] then None
    else
      var page := r.spaces[e][v];
      assert RefPageOk(r, page);
      match page
      case Private(bytes, _) => Some(bytes[off])
      case Shared(f, _) => Some(r.shared[f][off])
  }

  lemma AbsOk(st: State, shared: set<nat>)
    requires Inv(st, shared)
    ensures RefOk(Abs(st, shared))
  {
    forall x, u | x in Abs(st, shared).spaces && u in Abs(st, shared).spaces[x]
      ensures RefPageOk(Abs(st, shared), Abs(st, shared).spaces[x][u])
    {
      AbsAt(st, shared, x, u);
    }
  }

  /* ---- stores and loads in the real machine ---- */

  /** A store to page v: in place if writable, after a private copy if copy-on-write. */
  function Write(st: State, e: nat, v: nat, off: nat, b: byte): Option<State>
    requires off < PGSIZE && v != UTEMP
    requires e in st.spaces && v in st.spaces[e] ==>
      st.spaces[e][v].frame in st.mem && |st.mem[st.spaces[e][v].frame]| == PGSIZE
  {
    if e !in st.spaces || v !in st.spaces[e] then None
    else if st.spaces[e][v].w then Some(Poke(st, st.spaces[e][v].frame, off, b))
    else if st.spaces[e][v].cow then Some(Poke(Faulted(st, e, v), st.next, off, b))
    else None
  }

  function Poke(st: State, f: nat, off: nat, b: byte): State
    requires f in st.mem && off < |st.mem[f]|
  {
    st.(mem := st.mem[f := st.mem[f][off := b]])
  }

  /** r says at (e, v) exactly what the machine shows there. */
  predicate Agrees(st: State, r: Ref, e: nat, v: nat)
    requires e in st.spaces
  {
    && e in r.spaces
    && (v in r.spaces[e] <==> v in st.spaces[e] && v < LIMIT)
    && (v in r.spaces[e] ==> st.spaces[e][v].frame in st.mem && r.spaces[e][v] == See(st.mem, st.spaces[e][v]))
  }

  lemma AbsUnique(st: State, shared: set<nat>, r: Ref)
    requires Inv(st, shared) && r.spaces.Keys == st.spaces.Keys && r.shared.Keys == shared
    requires forall e: nat, v: nat :: e in st.spaces ==> Agrees(st, r, e, v)
    requires forall f :: f in shared ==> r.shared[f] == st.mem[f]
    ensures Abs(st, shared) == r
  {
    var a := Abs(st, shared);
    forall e | e in a.spaces ensures a.spaces[e] == r.spaces[e] {
      forall v: nat ensures v in a.spaces[e] <==> v in r.spaces[e] {
        AbsAt(st, shared, e, v);
        assert Agrees(st, r, e, v);
      }
      forall v | v in a.spaces[e] ensures a.spaces[e][v] == r.spaces[e][v] {
        AbsAt(st, shared, e, v);
        assert Agrees(st, r, e, v);
      }
      assert a.spaces[e] == r.spaces[e];
    }
    assert a.spaces == r.spaces;
    assert a.shared == r.shared;
  }

  lemma AbsAgrees(st: State, shared: set<nat>, e: nat, v: nat)
    requires Inv(st, shared) && e in st.spaces
    ensures Agrees(st, Abs(st, shared), e, v)
  {
    AbsAt(st, shared, e, v);
  }

  /* ---- fork ---- */

  /** The environment whose page v the page (e, v) after a fork came from. */
  function Origin(p: nat, c: nat, e: nat): nat { if e == c then p else e }

  lemma ForkedAt(st: State, p: nat, c: nat, e: nat, v: nat)
    requires p in st.spaces && c !in st.spaces && e in Forked(st, p, c).spaces
    ensures Origin(p, c, e) in st.spaces
    ensures var o := Origin(p, c, e); var s' := Forked(st, p, c).spaces[e];
            && (v in s' <==> (v in st.spaces[o] && (e == c ==> v < LIMIT)) || (e == c && v == UXSTACK))
            && (e == c && v == UXSTACK ==> s'[v] == Pte(st.next, true, false, false, false))
            && (v in s' && !(e == c && v == UXSTACK) ==>
                  s'[v] == if o == p && v < LIMIT then ParentPte(st.spaces[o][v]) else st.spaces[o][v])
  {}

  lemma ForkKeepsPte(st: State, shared: set<nat>, p: nat, c: nat, e: nat, v: nat)
    requires Inv(st, shared) && p in st.spaces && c !in st.spaces
    requires e in Forked(st, p, c).spaces && v in Forked(st, p, c).spaces[e]
    ensures PteOk(Forked(st, p, c), shared, Forked(st, p, c).spaces[e][v])
  {
    ForkedAt(st, p, c, e, v);
    var o := Origin(p, c, e);
    if v in st.spaces[o] { assert PteOk(st, shared, st.spaces[o][v]); }
  }

  lemma ForkKeepsSole(st: State, shared: set<nat>, p: nat, c: nat, e: nat, v: nat)
    requires Inv(st, shared) && p in st.spaces && c !in st.spaces
    requires e in Forked(st, p, c).spaces && v in Forked(st, p, c).spaces[e]
    ensures Sole(Forked(st, p, c), e, v)
  {
    var st' := Forked(st, p, c);
    var o := Origin(p, c, e);
    ForkedAt(st, p, c, e, v);
    if v in st.spaces[o] { assert PteOk(st, shared, st.spaces[o][v]) && Sole(st, o, v); }
    forall x, u | x in st'.spaces && u in st'.spaces[x] && (x != e || u != v)
                  && st'.spaces[e][v].w && !st'.spaces[e][v].share
      ensures st'.spaces[x][u].frame != st'.spaces[e][v].frame
    {
      ForkedAt(st, p, c, x, u);
      var y := Origin(p, c, x);
      if u in st.spaces[y] { assert PteOk(st, shared, st.spaces[y][u]); }
    }
  }

  lemma ForkKeepsInv(st: State, shared: set<nat>, p: nat, c: nat)
    requires Inv(st, shared) && p in st.spaces && c !in st.spaces
    ensures Inv(Forked(st, p, c), shared)
  {
    var st' := Forked(st, p, c);
    forall e, v | e in st'.spaces && v in st'.spaces[e]
      ensures PteOk(st', shared, st'.spaces[e][v]) && Sole(st', e, v)
    {
      ForkKeepsPte(st, shared, p, c, e, v);
      ForkKeepsSole(st, shared, p, c, e, v);
    }
    forall e | e in st'.spaces ensures UTEMP !in st'.spaces[e] {
      ForkedAt(st, p, c, e, UTEMP);
    }
  }

  /** Fork on what environments see is a plain copy: the child has the parent's bytes,
      shares its PTE_SHARE pages, and no environment's view has changed. */
  lemma ForkRefinesCopy(st: State, shared: set<nat>, p: nat, c: nat)
    requires Inv(st, shared) && p in st.spaces && c !in st.spaces
    ensures Inv(Forked(st, p, c), shared)
    ensures Abs(Forked(st, p, c), shared) == RefFork(Abs(st, shared), p, c)
  {
    ForkKeepsInv(st, shared, p, c);
    var st' := Forked(st, p, c);
    var r := RefFork(Abs(st, shared), p, c);
    forall e: nat, v: nat | e in st'.spaces ensures Agrees(st', r, e, v) {
      ForkedAt(st, p, c, e, v);
      var o := Origin(p, c, e);
      AbsAgrees(st, shared, o, v);
      if v in st.spaces[o] { assert PteOk(st, shared, st.spaces[o][v]); }
    }
    AbsUnique(st', shared, r);
  }

  /* ---- the fault handler ---- */

  predicate Faults(st: State, e: nat, v: nat) {
    && e in st.spaces && v in st.spaces[e] && st.spaces[e][v].cow && !st.spaces[e][v].share
    && v != UTEMP && st.spaces[e][v].frame in st.mem
  }

  lemma FaultedAt(st: State, e: nat, v: nat, x: nat, u: nat)
    requires Faults(st, e, v) && x in st.spaces
    ensures Faulted(st, e, v).spaces.Keys == st.spaces.Keys
    ensures var s' := Faulted(st, e, v).spaces[x];
            && (u in s' <==> u in st.spaces[x] && !(x == e && u == UTEMP))
            && (u in s' ==>
                  s'[u] == if x == e && u == v then Pte(st.next, true, false, false, false) else st.spaces[x][u])
    ensures Faulted(st, e, v).mem == st.mem[st.next := st.mem[st.spaces[e][v].frame]]
  {}

  lemma FaultKeepsInv(st: State, shared: set<nat>, e: nat, v: nat)
    requires Inv(st, shared) && Faults(st, e, v)
    ensures Inv(Faulted(st, e, v), shared)
  {
    var st' := Faulted(st, e, v);
    FaultedAt(st, e, v, e, v);
    forall x, u | x in st'.spaces && u in st'.spaces[x]
      ensures PteOk(st', shared, st'.spaces[x][u]) && Sole(st', x, u)
    {
      FaultedAt(st, e, v, x, u);
      assert PteOk(st, shared, st.spaces[x][u]) && Sole(st, x, u);
      forall y, t | y in st'.spaces && t in st'.spaces[y] && (y != x || t != u)
                    && st'.spaces[x][u].w && !st'.spaces[x][u].share
        ensures st'.spaces[y][t].frame != st'.spaces[x][u].frame
      {
        FaultedAt(st, e, v, y, t);
        assert PteOk(st, shared, st.spaces[y][t]);
      }
    }
    forall x | x in st'.spaces ensures UTEMP !in st'.spaces[x] {
      FaultedAt(st, e, v, x, UTEMP);
    }
  }

  /** Taking a private copy changes nothing anyone sees. */
  lemma FaultInvisible(st: State, shared: set<nat>, e: nat, v: nat)
    requires Inv(st, shared) && Faults(st, e, v)
    ensures Inv(Faulted(st, e, v), shared) && Abs(Faulted(st, e, v), shared) == Abs(st, shared)
  {
    FaultKeepsInv(st, shared, e, v);
    var st' := Faulted(st, e, v);
    var r := Abs(st, shared);
    FaultedAt(st, e, v, e, v);
    forall x: nat, u: nat | x in st'.spaces ensures Agrees(st', r, x, u) {
      FaultedAt(st, e, v, x, u);
      AbsAgrees(st, shared, x, u);
      if u in st.spaces[x] { assert PteOk(st, shared, st.spaces[x][u]); }
    }
    AbsUnique(st', shared, r);
  }

  /* ---- stores ---- */

  lemma PokeKeepsInv(st: State, shared: set<nat>, f: nat, off: nat, b: byte)
    requires Inv(st, shared) && f in st.mem && off < PGSIZE
    ensures Inv(Poke(st, f, off, b), shared)
  {
    var st' := Poke(st, f, off, b);
    forall e, v | e in st'.spaces && v in st'.spaces[e]
      ensures PteOk(st', shared, st'.spaces[e][v]) && Sole(st', e, v)
    {
      assert PteOk(st, shared, st.spaces[e][v]) && Sole(st, e, v);
    }
  }

  /** A store in place is seen by exactly the environments that should see it. */
  lemma PokeRefines(st: State, shared: set<nat>, e: nat, v: nat, off: nat, b: byte)
    requires Inv(st, shared) && e in st.spaces && v in st.spaces[e] && v < LIMIT && st.spaces[e][v].w && off < PGSIZE
    ensures PteOk(st, shared, st.spaces[e][v]) && RefOk(Abs(st, shared))
    ensures var st' := Poke(st, st.spaces[e][v].frame, off, b);
            Inv(st', shared) && RefWrite(Abs(st, shared), e, v, off, b) == Some(Abs(st', shared))
  {
    var pte := st.spaces[e][v];
    assert PteOk(st, shared, pte) && Sole(st, e, v);
    PokeKeepsInv(st, shared, pte.frame, off, b);
    AbsOk(st, shared);
    AbsAgrees(st, shared, e, v);
    var st' := Poke(st, pte.frame, off, b);
    var r := RefWrite(Abs(st, shared), e, v, off, b).value;
    forall x: nat, u: nat | x in st'.spaces ensures Agrees(st', r, x, u) {
      AbsAgrees(st, shared, x, u);
      if u in st.spaces[x] { assert PteOk(st, shared, st.spaces[x][u]); }
    }
    AbsUnique(st', shared, r);
  }

  /** Every store has the effect it would have had on eagerly copied memory, and panics
      exactly when it would have. */
  lemma WriteRefines(st: State, shared: set<nat>, e: nat, v: nat, off: nat, b: byte)
    requires Inv(st, shared) && v < LIMIT && v != UTEMP && off < PGSIZE
    ensures e in st.spaces && v in st.spaces[e] ==> PteOk(st, shared, st.spaces[e][v])
    ensures RefOk(Abs(st, shared))
    ensures Write(st, e, v, off, b).None? <==> RefWrite(Abs(st, shared), e, v, off, b).None?
    ensures Write(st, e, v, off, b).Some? ==>
              && Inv(Write(st, e, v, off, b).value, shared)
              && RefWrite(Abs(st, shared), e, v, off, b) == Some(Abs(Write(st, e, v, off, b).value, shared))
  {
    AbsOk(st, shared);
    if e in st.spaces {
      AbsAgrees(st, shared, e, v);
      if v in st.spaces[e] {
        assert PteOk(st, shared, st.spaces[e][v]);
        if st.spaces[e][v].w {
          PokeRefines(st, shared, e, v, off, b);
        } else if st.spaces[e][v].cow {
          FaultInvisible(st, shared, e, v);
          FaultedAt(st, e, v, e, v);
          PokeRefines(Faulted(st, e, v), shared, e, v, off, b);
        }
      }
    }
  }

  /* ---- whole runs ---- */

  datatype Op = Fork(p: nat, c: nat) | Store(e: nat, v: nat, off: nat, b: byte) | Load(e: nat, v: nat, off: nat)

  predicate OpOk(op: Op) {
    match op
    case Fork(_, _) => true
    case Store(_, v, off, _) => v < LIMIT && v != UTEMP && off < PGSIZE
    case Load(_, v, off) => v < LIMIT && off < PGSIZE
  }

  ghost function Step(st: State, shared: set<nat>, op: Op): (res: (State, Option<byte>))
    requires Inv(st, shared) && OpOk(op)
  {
    match op
    case Fork(p, c) => if p in st.spaces && c !in st.spaces then (Forked(st, p, c), None) else (st, None)
    case Store(e, v, off, b) =>
      WriteRefines(st, shared, e, v, off, b);
      (match Write(st, e, v, off, b) case None => (st, None) case Some(st') => (st', Some(b)))
    case Load(e, v, off) =>
      if e in st.spaces && v in st.spaces[e]
      then (assert PteOk(st, shared, st.spaces[e][v]); (st, Some(st.mem[st.spaces[e][v].frame][off])))
      else (st, None)
  }

  ghost function RefStep(r: Ref, op: Op): (res: (Ref, Option<byte>))
    requires RefOk(r) && OpOk(op)
  {
    match op
    case Fork(p, c) => if p in r.spaces && c !in r.spaces then (RefFork(r, p, c), None) else (r, None)
    case Store(e, v, off, b) =>
      (match RefWrite(r, e, v, off, b) case None => (r, None) case Some(r') => (r', Some(b)))
    case Load(e, v, off) => (r, RefRead(r, e, v, off))
  }

  lemma StepRefines(st: State, shared: set<nat>, op: Op)
    requires Inv(st, shared) && OpOk(op)
    ensures RefOk(Abs(st, shared)) && Inv(Step(st, shared, op).0, shared)
    ensures RefStep(Abs(st, shared), op) == (Abs(Step(st, shared, op).0, shared), Step(st, shared, op).1)
  {
    AbsOk(st, shared);
    match op
    case Fork(p, c) => if p in st.spaces && c !in st.spaces { ForkRefinesCopy(st, shared, p, c); }
    case Store(e, v, off, b) => WriteRefines(st, shared, e, v, off, b);
    case Load(e, v, off) =>
      if e in st.spaces {
        AbsAgrees(st, shared, e, v);
        if v in st.spaces[e] { assert PteOk(st, shared, st.spaces[e][v]); }
      }
  }

  ghost function Run(st: State, shared: set<nat>, ops: seq<Op>): (res: (State, seq<Option<byte>>))
    requires Inv(st, shared) && forall i :: 0 <= i < |ops| ==> OpOk(ops[i])
    decreases |ops|
  {
    if ops == [] then (st, [])
    else
      var (st1, out) := Step(st, shared, ops[0]);
      StepRefines(st, shared, ops[0]);
      var (st2, outs) := Run(st1, shared, ops[1..]);
      (st2, [out] + outs)
  }

  ghost function RefRun(r: Ref, ops: seq<Op>): (res: (Ref, seq<Option<byte>>))
    requires forall i :: 0 <= i < |ops| ==> OpOk(ops[i])
    decreases |ops|
  {
    if ops == [] then (r, [])
    else if !RefOk(r) then (r, [])
    else
      var (r1, out) := RefStep(r, ops[0]);
      var (r2, outs) := RefRun(r1, ops[1..]);
      (r2, [out] + outs)
  }

  /** Copy-on-write fork refines eager-copy fork: over every sequence of forks, loads and
      stores by any number of environments, every load returns and every store does what
      it would if fork had copied all pages that are not PTE_SHARE. */
  lemma {:induction false} RunRefinesEagerCopy(st: State, shared: set<nat>, ops: seq<Op>)
    requires Inv(st, shared) && forall i :: 0 <= i < |ops| ==> OpOk(ops[i])
    ensures Inv(Run(st, shared, ops).0, shared)
    ensures RefRun(Abs(st, shared), ops) == (Abs(Run(st, shared, ops).0, shared), Run(st, shared, ops).1)
    decreases |ops|
  {
    if ops != [] {
      StepRefines(st, shared, ops[0]);
      RunRefinesEagerCopy(Step(st, shared, ops[0]).0, shared, ops[1..]);
    }
  }

  /* ---- where the promise stops ---- */

  predicate SameView(st: State, st': State, x: nat, u: nat)
    requires x in st.spaces && x in st'.spaces
  {
    && (u in st.spaces[x] <==> u in st'.spaces[x])
    && (u in st.spaces[x] && st.spaces[x][u].frame in st.mem ==>
          st'.spaces[x][u].frame in st'.mem && See(st'.mem, st'.spaces[x][u]) == See(st.mem, st.spaces[x][u]))
  }

  /** The handler builds its copy at UTEMP and then unmaps it: a fault is invisible if and
      only if the environment had nothing of its own mapped there. */
  lemma FaultInvisibleIffTempFree(st: State, e: nat, v: nat)
    requires Faults(st, e, v) && forall f :: f in st.mem ==> f < st.next
    ensures (forall x: nat, u: nat ::
              x in st.spaces ==> x in Faulted(st, e, v).spaces && SameView(st, Faulted(st, e, v), x, u))
            <==> UTEMP !in st.spaces[e]
  {
    var st' := Faulted(st, e, v);
    FaultedAt(st, e, v, e, UTEMP);
    if UTEMP in st.spaces[e] {
      assert !SameView(st, st', e, UTEMP);
    } else {
      forall x: nat, u: nat | x in st.spaces ensures x in st'.spaces && SameView(st, st', x, u) {
        FaultedAt(st, e, v, x, u);
      }
    }
  }

  /** At an input: a copy-on-write page 1 and a page of its own at UTEMP, which a fault on page 1 loses. */
  lemma TempPageLost() returns (st: State)
    ensures Faults(st, 0, 1) && UTEMP in st.spaces[0] && UTEMP !in Faulted(st, 0, 1).spaces[0]
  {
    var space: Space := map[1 := Pte(0, false, true, false, false), UTEMP := Pte(1, true, false, false, false)];
    st := State(map[0 := ZeroPage(), 1 := ZeroPage()], map[0 := space], 2);
    FaultedAt(st, 0, 1, 0, UTEMP);
  }

  /** duppage rebuilds the permissions of writable private pages from scratch: the user's
      own mark survives a fork, in either space, exactly on the other pages. */
  lemma MarkSurvivesForkIff(st: State, p: nat, c: nat, v: nat)
    requires p in st.spaces && c !in st.spaces && v in st.spaces[p] && v < LIMIT && st.spaces[p][v].mark
    ensures var s := Forked(st, p, c).spaces; var pte := st.spaces[p][v];
            && v in s[p] && v in s[c] && (s[p][v].mark <==> pte.share || !(pte.w || pte.cow))
            && (s[c][v].mark <==> s[p][v].mark)
  {
    ForkedAt(st, p, c, p, v);
    ForkedAt(st, p, c, c, v);
  }

  /* ---- fork.c in place ---- */

  lemma DuplicateNext(s: Space, n: nat)
    ensures n in s ==> ParentSpace(s, n + 1) == ParentSpace(s, n)[n := ParentPte(s[n])]
    ensures n in s ==> ChildSpace(s, n + 1) == ChildSpace(s, n)[n := ChildPte(s[n])]
    ensures n !in s ==> ParentSpace(s, n + 1) == ParentSpace(s, n) && ChildSpace(s, n + 1) == ChildSpace(s, n)
  {}

  lemma DuplicateSkip(s: Space, n: nat, n': nat)
    requires n <= n' && forall v :: n <= v < n' ==> v !in s
    ensures ParentSpace(s, n') == ParentSpace(s, n) && ChildSpace(s, n') == ChildSpace(s, n)
  {}

  /** One duppage call extends the duplicated prefix by one page. */
  lemma DuplicatedNext(st: State, p: nat, c: nat, n: nat)
    requires p in st.spaces && p != c
    ensures n in Duplicated(st, p, c, n).spaces[p] <==> n in st.spaces[p]
    ensures n !in st.spaces[p] ==> Duplicated(st, p, c, n + 1) == Duplicated(st, p, c, n)
    ensures n in st.spaces[p] ==>
              var d := Duplicated(st, p, c, n);
              d.spaces[p][n] == st.spaces[p][n]
              && Duplicated(st, p, c, n + 1) ==
                   SetPte(SetPte(d, c, n, ChildPte(st.spaces[p][n])), p, n, ParentPte(st.spaces[p][n]))
  {
    var s := st.spaces[p];
    DuplicateNext(s, n);
    if n in s {
      var d := Duplicated(st, p, c, n);
      var d' := SetPte(SetPte(d, c, n, ChildPte(s[n])), p, n, ParentPte(s[n]));
      assert d'.spaces == Duplicated(st, p, c, n + 1).spaces;
    }
  }

  function UpTo(n: nat): nat { if n < LIMIT then n else LIMIT }

  class Machine {
    var mem: map<nat, seq<byte>>
    var spaces: map<nat, Space>
    var next: nat
    /** uvpd: the page tables each environment has. */
    var tables: map<nat, set<nat>>

    ghost function S(): State
      reads this
    {
      State(mem, spaces, next)
    }

    ghost predicate Tabled(e: nat)
      reads this
    {
      e in spaces && e in tables && forall v :: v in spaces[e] ==> v / NPDE in tables[e]
    }

    /** sys_page_map within the kernel's checks: the source is mapped, and write access is
        not granted to a page that is read-only at the source. */
    method SysPageMap(se: nat, sv: nat, de: nat, dv: nat, w: bool, cow: bool, share: bool, mark: bool)
      returns (ok: bool)
      requires se in spaces && de in spaces && de in tables
      modifies this
      ensures ok <==> sv in old(spaces[se]) && (w ==> old(spaces[se])[sv].w)
      ensures ok ==> S() == SetPte(old(S()), de, dv, Pte(old(spaces[se])[sv].frame, w, cow, share, mark))
      ensures !ok ==> S() == old(S())
      ensures tables == if ok then old(tables)[de := old(tables)[de] + {dv / NPDE}] else old(tables)
    {
      if sv !in spaces[se] { return false; }
      if w && !spaces[se][sv].w { return false; }
      var dst: Space := spaces[de];
      spaces := spaces[de := dst[dv := Pte(spaces[se][sv].frame, w, cow, share, mark)]];
      tables := tables[de := tables[de] + {dv / NPDE}];
      return true;
    }

    /** duppage: the child's mapping is made first, then the parent's is made to match. */
    method Duppage(p: nat, c: nat, pn: nat)
      requires Tabled(p) && c in spaces && c in tables && p != c && pn in spaces[p]
      modifies this
      ensures Tabled(p) && c in spaces && c in tables
      ensures S() == SetPte(SetPte(old(S()), c, pn, ChildPte(old(spaces[p])[pn])), p, pn, ParentPte(old(spaces[p])[pn]))
    {
      var pte := spaces[p][pn];
      var ok;
      if pte.share {
        ok := SysPageMap(p, pn, c, pn, pte.w, pte.cow, true, pte.mark);
        assert spaces[p] == old(spaces[p])[pn := pte];
      } else if pte.w || pte.cow {
        ok := SysPageMap(p, pn, c, pn, false, true, false, false);
        ok := SysPageMap(p, pn, p, pn, false, true, false, false);
      } else {
        ok := SysPageMap(p, pn, c, pn, pte.w, pte.cow, pte.share, pte.mark);
        assert spaces[p] == old(spaces[p])[pn := pte];
      }
    }

    /** The inner loop of fork over one page table; true once USTACKTOP is reached. */
    method DupTable(p: nat, c: nat, pn: nat, ghost st: State) returns (flag: bool)
      requires Tabled(p) && c in tables && p in st.spaces && p != c && S() == Duplicated(st, p, c, UpTo(pn * NPDE))
      modifies this
      ensures Tabled(p) && c in tables && S() == Duplicated(st, p, c, UpTo((pn + 1) * NPDE))
      ensures flag ==> (pn + 1) * NPDE > LIMIT
    {
      var j := NPDE * pn;
      flag := false;
      while j < NPDE * (pn + 1)
        invariant NPDE * pn <= j <= NPDE * (pn + 1) && (j <= LIMIT || j == NPDE * pn) && Tabled(p) && c in tables
        invariant !flag
        invariant S() == Duplicated(st, p, c, UpTo(j))
      {
        if j >= LIMIT {
          flag := true;
          break;
        }
        DuplicatedNext(st, p, c, j);
        if j in spaces[p] {
          Duppage(p, c, j);
        }
        j := j + 1;
      }
    }

    /** The outer loop of fork, over the page tables the parent has. */
    method DupAll(p: nat, c: nat, ghost st: State)
      requires Tabled(p) && c in tables && p in st.spaces && p != c && S() == Duplicated(st, p, c, 0)
      modifies this
      ensures c in spaces && S() == Duplicated(st, p, c, LIMIT)
    {
      ghost var s := st.spaces[p];
      var pn, flag := 0, false;
      while pn < NPDE && !flag
        invariant 0 <= pn <= NPDE && Tabled(p) && c in tables
        invariant S() == Duplicated(st, p, c, UpTo(pn * NPDE)) && (flag ==> pn * NPDE > LIMIT)
        decreases NPDE - pn
      {
        if pn in tables[p] {
          flag := DupTable(p, c, pn, st);
        } else {
          assert forall v :: v in s ==> v in spaces[p];
          DuplicateSkip(s, UpTo(NPDE * pn), UpTo(NPDE * (pn + 1)));
        }
        pn := pn + 1;
      }
    }

    /** fork: duppage on every present page below USTACKTOP, found through uvpd and uvpt,
        then a page for the child's exception stack. */
    method Fork(p: nat, c: nat)
      requires Tabled(p) && c !in spaces
      modifies this
      ensures S() == Forked(old(S()), p, c)
    {
      ghost var st, s := S(), spaces[p];
      spaces := spaces[c := map[]];
      tables := tables[c := {}];
      assert ParentSpace(s, 0) == s && ChildSpace(s, 0) == map[];
      assert S() == Duplicated(st, p, c, 0);
      DupAll(p, c, st);
      var z := ZeroPage();
      mem := mem[next := z];
      var child: Space := spaces[c];
      spaces := spaces[c := child[UXSTACK := Pte(next, true, false, false, false)]];
      next := next + 1;
    }

    /** pgfault: three system calls and a copy. */
    method Pgfault(e: nat, v: nat)
      requires e in spaces && e in tables && v in spaces[e] && spaces[e][v].frame in mem && v != UTEMP
      requires spaces[e][v].frame < next
      modifies this
      ensures S() == Faulted(old(S()), e, v)
    {
      var z := ZeroPage();
      mem := mem[next := z];
      var own: Space := spaces[e];
      spaces := spaces[e := own[UTEMP := Pte(next, true, false, false, false)]];
      next := next + 1;
      mem := mem[spaces[e][UTEMP].frame := mem[spaces[e][v].frame]];
      var ok := SysPageMap(e, UTEMP, e, v, true, false, false, false);
      spaces := spaces[e := spaces[e] - {UTEMP}];
    }
  }
}
