/** The environment table: allocation, the free list, and how far env ids stay fresh. */
module EnvIds {
  import opened Sched

  const GEN: int := 0x1000            // 1 << ENVGENSHIFT
  const PERIOD: nat := 0x7_FFFF       // 2^19 - 1
  const NULL: int := -1

  /** Two's-complement wrap-around of a 32-bit integer. */
  function Wrap32(x: int): (w: int)
    ensures -0x8000_0000 <= w < 0x8000_0000
  {
    (x + 0x8000_0000) % 0x1_0000_0000 - 0x8000_0000
  }

  /** x & ~(NENV - 1) and x & (NENV - 1), on two's-complement values. */
  function ClearIndex(x: int): int { x - x % 1024 }
  function ENVX(id: int): (i: nat) ensures i < NENV { id % 1024 }

  /** The id env_alloc gives a slot whose previous id was `id`. */
  function NextId(id: int, slot: nat): int
    requires slot < NENV
  {
    var generation := ClearIndex(Wrap32(id + GEN));
    (if generation <= 0 then GEN else generation) + slot
  }

  /** The id of a slot after n allocations; a fresh slot has id 0. */
  function IdAfter(slot: nat, n: nat): int
    requires slot < NENV
  {
    if n == 0 then 0 else NextId(IdAfter(slot, n - 1), slot)
  }

  function IdOf(g: nat, slot: nat): int { g * GEN + slot }

  /** The generation after n allocations: it counts up to PERIOD and starts over at 1. */
  function Generation(n: nat): (g: nat)
    requires n > 0
    ensures 1 <= g <= PERIOD
  {
    if n == 1 then 1 else if Generation(n - 1) == PERIOD then 1 else Generation(n - 1) + 1
  }

  lemma {:induction false} GenerationFormula(n: nat)
    requires n > 0
    ensures Generation(n) == (n - 1) % PERIOD + 1
  {
    if n > 1 {
      GenerationFormula(n - 1);
      ModSucc(n - 2);
    }
  }

  /** Every issued id is its generation and its slot. */
  lemma {:induction false} IdFormula(slot: nat, n: nat)
    requires slot < NENV && n > 0
    ensures IdAfter(slot, n) == IdOf(Generation(n), slot)
  {
    if n == 1 {
      FirstId(slot);
    } else {
      IdFormula(slot, n - 1);
      NextGeneration(Generation(n - 1), slot);
      assert IdAfter(slot, n) == NextId(IdAfter(slot, n - 1), slot);
    }
  }

  lemma FirstId(slot: nat)
    requires slot < NENV
    ensures IdAfter(slot, 1) == IdOf(1, slot)
  {
    assert IdAfter(slot, 0) == 0;
  }

  lemma Low(q: int, r: nat)
    requires r < 1024
    ensures (1024 * q + r) % 1024 == r
  {}

  lemma Wraps(x: int)
    requires 0 <= x < 0x1_0000_0000
    ensures Wrap32(x) == if x < 0x8000_0000 then x else x - 0x1_0000_0000
  {}

  lemma NextGeneration(g: nat, slot: nat)
    requires 1 <= g <= PERIOD && slot < NENV
    ensures NextId(IdOf(g, slot), slot) == IdOf(if g == PERIOD then 1 else g + 1, slot)
  {
    var x := IdOf(g, slot) + GEN;
    assert x == 1024 * (4 * (g + 1)) + slot;
    Wraps(x);
    if g < PERIOD {
      Low(4 * (g + 1), slot);
    } else {
      assert x - 0x1_0000_0000 == 1024 * (4 * (g + 1) - 0x40_0000) + slot;
      Low(4 * (g + 1) - 0x40_0000, slot);
    }
  }

  lemma ModSucc(a: nat)
    ensures (a + 1) % PERIOD == if a % PERIOD == PERIOD - 1 then 0 else a % PERIOD + 1
  {
    var q := a / PERIOD;
    assert a == q * PERIOD + a % PERIOD;
    if a % PERIOD == PERIOD - 1 { assert a + 1 == (q + 1) * PERIOD; }
  }

  lemma IdParts(g: nat, slot: nat)
    requires 1 <= g <= PERIOD && slot < NENV
    ensures 0 < IdOf(g, slot) < 0x8000_0000 && ENVX(IdOf(g, slot)) == slot
  {
    assert IdOf(g, slot) == 1024 * (4 * g) + slot;
    Low(4 * g, slot);
  }

  /** Issued ids are positive and name their slot. */
  lemma IdsNameTheirSlot(slot: nat, m: nat)
    requires slot < NENV && 0 < m
    ensures 0 < IdAfter(slot, m) < 0x8000_0000 && ENVX(IdAfter(slot, m)) == slot
  {
    IdFormula(slot, m);
    IdParts(Generation(m), slot);
  }

  lemma SameIdSameGeneration(slot: nat, m: nat, n: nat)
    requires slot < NENV && 0 < m && 0 < n
    ensures IdAfter(slot, m) == IdAfter(slot, n) <==> Generation(m) == Generation(n)
  {
    IdFormula(slot, m);
    IdFormula(slot, n);
  }

  lemma SameGenerationIff(m: nat, n: nat)
    requires 0 < m && 0 < n
    ensures Generation(m) == Generation(n) <==> (m - n) % PERIOD == 0
  {
    GenerationFormula(m);
    GenerationFormula(n);
    ModDiff(m - 1, n - 1);
  }

  /** The ids of a slot repeat with period exactly 2^19 - 1. */
  lemma IdsRepeatExactly(slot: nat, m: nat, n: nat)
    requires slot < NENV && 0 < m && 0 < n
    ensures IdAfter(slot, m) == IdAfter(slot, n) <==> (m - n) % PERIOD == 0
  {
    SameIdSameGeneration(slot, m, n);
    SameGenerationIff(m, n);
  }

  lemma ModDiff(a: nat, b: nat)
    ensures a % PERIOD == b % PERIOD <==> (a - b) % PERIOD == 0
  {
    var q, r := a / PERIOD - b / PERIOD, a % PERIOD - b % PERIOD;
    assert a - b == q * PERIOD + r;
    if r < 0 { assert a - b == (q - 1) * PERIOD + (r + PERIOD); }
  }

  /** Ids of different slots never coincide. */
  lemma SlotsDistinct(a: nat, m: nat, b: nat, n: nat)
    requires a < NENV && b < NENV && a != b && 0 < m && 0 < n
    ensures IdAfter(a, m) != IdAfter(b, n)
  {
    IdsNameTheirSlot(a, m);
    IdsNameTheirSlot(b, n);
  }

  /* ---- the table ---- */

  datatype Env = Env(id: int, parent: int, status: Status, link: int)

  /** The free slots in list order: `rank` is the distance from the end, n the length. */
  ghost predicate FreeSlots(envs: seq<Env>, head: int, rank: map<nat, nat>, n: nat) {
    && (n == 0 ==> head == NULL)
    && (n > 0 ==> head >= 0 && head in rank && rank[head] == n - 1)
    && (forall e: nat :: SlotOk(envs, rank, n, e))
    && (forall d, e :: d in rank && e in rank && rank[d] == rank[e] ==> d == e)
  }

  /** Exactly the FREE slots are listed, and each links to the next one down. */
  predicate SlotOk(envs: seq<Env>, rank: map<nat, nat>, n: nat, e: nat) {
    && (e in rank <==> e < |envs| && envs[e].status == FREE)
    && (e in rank ==>
          && rank[e] < n
          && (rank[e] == 0 ==> envs[e].link == NULL)
          && (rank[e] > 0 ==> envs[e].link >= 0 && envs[e].link in rank && rank[envs[e].link] == rank[e] - 1))
  }

  /** Every slot's id is the one its number of allocations gives. */
  ghost predicate IdsOk(envs: seq<Env>, count: seq<nat>) {
    && |envs| == |count| == NENV
    && forall e :: 0 <= e < NENV ==> envs[e].id == IdAfter(e, count[e]) && (envs[e].status != FREE ==> count[e] > 0)
  }

  lemma PopSlot(envs: seq<Env>, head: int, rank: map<nat, nat>, n: nat, env: Env)
    requires FreeSlots(envs, head, rank, n) && n > 0 && env.status != FREE
    ensures 0 <= head < |envs| && envs[head].status == FREE
    ensures FreeSlots(envs[head := env], envs[head].link, rank - {head}, n - 1)
  {
    assert SlotOk(envs, rank, n, head);
    var envs', rank', n' := envs[head := env], rank - {head}, n - 1;
    forall e: nat ensures SlotOk(envs', rank', n', e) {
      assert SlotOk(envs, rank, n, e) && (e in rank' ==> rank[e] != rank[head]);
    }
    if n > 1 { assert envs[head].link in rank' && rank'[envs[head].link] == n - 2; }
  }

  lemma PushSlot(envs: seq<Env>, head: int, rank: map<nat, nat>, n: nat, e: nat)
    requires FreeSlots(envs, head, rank, n) && e < |envs| && envs[e].status != FREE
    ensures FreeSlots(envs[e := envs[e].(status := FREE, link := head)], e, rank[e := n], n + 1)
  {
    var envs', rank', n' := envs[e := envs[e].(status := FREE, link := head)], rank[e := n], n + 1;
    assert SlotOk(envs, rank, n, e);
    if n > 0 { assert SlotOk(envs, rank, n, head); }
    forall d: nat ensures SlotOk(envs', rank', n', d) {
      assert SlotOk(envs, rank, n, d);
      if d == e && n > 0 { assert rank'[head] == n - 1; }
    }
    forall x, y | x in rank' && y in rank' && rank'[x] == rank'[y] ensures x == y {
      assert SlotOk(envs, rank, n, x) && SlotOk(envs, rank, n, y);
    }
  }

  function InOrder(e: nat): nat { if e < NENV then NENV - 1 - e else 0 }

  datatype AllocResult = Allocated(slot: nat) | NoFreeEnv | NoMem

  datatype LookupResult = Found(slot: nat) | Current | BadEnv

  class EnvTable {
    const envs: array<Env>
    var freeList: int
    ghost var rank: map<nat, nat>
    ghost var nfree: nat
    ghost var count: seq<nat>

    ghost predicate Valid()
      reads this, envs
    {
      envs.Length == NENV && FreeSlots(envs[..], freeList, rank, nfree) && IdsOk(envs[..], count)
    }

    /** env_init: every slot free, in order, so that slot 0 is allocated first. */
    constructor ()
      ensures Valid() && nfree == NENV && freeList == 0 && fresh(envs)
    {
      envs := new Env[NENV](_ => Env(0, 0, FREE, NULL));
      freeList := NULL;
      rank := map e: nat | e < NENV :: InOrder(e);
      nfree := NENV;
      count := seq(NENV, _ => 0);
      new;
      var i, tail := 0, 0;
      while i < NENV
        invariant 0 <= i <= NENV && (i > 0 ==> tail == i - 1 && freeList == 0)
        invariant rank == map e: nat | e < NENV :: InOrder(e)
        invariant nfree == NENV && count == seq(NENV, _ => 0)
        invariant forall e :: 0 <= e < NENV ==> envs[e] == Env(0, 0, FREE, if e + 1 < i then e + 1 else NULL)
      {
        if i != 0 {
          envs[tail] := envs[tail].(link := i);
          tail := i;
        } else {
          freeList := i;
          tail := freeList;
        }
        i := i + 1;
      }
      forall e: nat ensures SlotOk(envs[..], rank, nfree, e) {}
    }

    /** env_alloc; vmOk is the outcome of env_setup_vm. */
    method EnvAlloc(parent: int, vmOk: bool) returns (r: AllocResult)
      requires Valid()
      modifies this, envs
      ensures Valid()
      ensures r == NoFreeEnv <==> old(nfree) == 0
      ensures r == NoMem <==> old(nfree) > 0 && !vmOk
      ensures !r.Allocated? ==> envs[..] == old(envs[..]) && count == old(count) && freeList == old(freeList)
      ensures r.Allocated? ==>
                && r.slot < NENV && old(envs[r.slot].status) == FREE
                && count == old(count)[r.slot := old(count)[r.slot] + 1]
                && envs[r.slot].id == IdAfter(r.slot, count[r.slot]) && envs[r.slot].status == RUNNABLE
                && envs[r.slot].parent == parent
                && forall d :: 0 <= d < NENV && d != r.slot ==> envs[d] == old(envs[d])
    {
      if freeList == NULL { return NoFreeEnv; }
      if !vmOk { return NoMem; }
      var e := freeList;
      assert SlotOk(envs[..], rank, nfree, e);
      var generation := ClearIndex(Wrap32(envs[e].id + GEN));
      if generation <= 0 { generation := GEN; }
      var env := Env(generation + e, parent, RUNNABLE, envs[e].link);
      assert env.id == IdAfter(e, count[e] + 1);
      PopSlot(envs[..], freeList, rank, nfree, env);
      freeList := envs[e].link;
      envs[e] := env;
      rank := rank - {e};
      nfree := nfree - 1;
      count := count[e := count[e] + 1];
      return Allocated(e);
    }

    /** The end of env_free: the slot goes back to the head of the list, keeping its id. */
    method EnvFree(e: nat)
      requires Valid() && e < NENV && envs[e].status != FREE
      modifies this, envs
      ensures Valid() && freeList == e && count == old(count)
      ensures envs[..] == old(envs[..])[e := old(envs[e]).(status := FREE, link := old(freeList))]
    {
      PushSlot(envs[..], freeList, rank, nfree, e);
      envs[e] := envs[e].(status := FREE, link := freeList);
      freeList := e;
      rank := rank[e := nfree];
      nfree := nfree + 1;
    }

    /** Environment cur may act on e: itself or a child. */
    predicate MayUse(cur: nat, e: nat)
      requires cur < envs.Length && e < envs.Length
      reads this, envs
    {
      e == cur || envs[e].parent == envs[cur].id
    }

    /** envid2env: id 0 stands for the caller; otherwise the one live environment with
        that id is found, unless checkperm is set and the caller may not use it. */
    method Envid2env(id: int, cur: nat, checkperm: bool) returns (r: LookupResult)
      requires Valid() && cur < NENV
      ensures id == 0 <==> r == Current
      ensures r.Found? ==>
        r.slot < NENV && envs[r.slot].status != FREE && envs[r.slot].id == id && (checkperm ==> MayUse(cur, r.slot))
      ensures r == BadEnv <==>
                && id != 0
                && forall e :: 0 <= e < NENV && envs[e].status != FREE && envs[e].id == id ==>
                                 checkperm && !MayUse(cur, e)
    {
      if id == 0 { return Current; }
      var e := ENVX(id);
      forall d | 0 <= d < NENV && envs[d].status != FREE && envs[d].id == id ensures d == e {
        IdsNameTheirSlot(d, count[d]);
      }
      if envs[e].status == FREE || envs[e].id != id { return BadEnv; }
      if checkperm && e != cur && envs[e].parent != envs[cur].id { return BadEnv; }
      return Found(e);
    }

    /** An id issued by a slot is rejected for as long as the slot is free, and after that
        until the slot has been allocated 2^19 - 1 more times; then it is accepted again. */
    lemma StaleRejectedUntil(e: nat, g: nat)
      requires Valid() && e < NENV && 0 < g <= count[e]
      ensures ENVX(IdAfter(e, g)) == e
      ensures envs[e].id == IdAfter(e, g) <==> (count[e] - g) % PERIOD == 0
      ensures 0 < count[e] - g < PERIOD ==> envs[e].id != IdAfter(e, g)
      ensures forall d :: 0 <= d < NENV && d != e && envs[d].status != FREE ==> envs[d].id != IdAfter(e, g)
    {
      IdsRepeatExactly(e, count[e], g);
      IdsNameTheirSlot(e, g);
      forall d | 0 <= d < NENV && d != e && envs[d].status != FREE ensures envs[d].id != IdAfter(e, g) {
        SlotsDistinct(e, g, d, count[d]);
      }
    }
  }
}
