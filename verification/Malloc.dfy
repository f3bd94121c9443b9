/** The user-level bump allocator: reference counts in page tails, PTE_CONTINUED runs. */
module Malloc {

  const PG: nat := 4096
  const MBEGIN: nat := 0x0800_0000
  const MEND: nat := 0x1000_0000
  const FIRST: nat := 0x8000           // MBEGIN / PG
  const END: nat := 0x1_0000           // MEND / PG
  const MAXMALLOC: nat := 0x10_0000

  /** A block handed out by malloc: address and rounded size. */
  datatype Chunk = Chunk(a: nat, n: nat)

  /** The page whose last word counts the chunk: the one holding the word after it. */
  function Last(c: Chunk): nat { (c.a + c.n + 3) / PG }

  /** `mapped` gives each mapped arena page its PTE_CONTINUED bit, `ref` the count word of
      the others; `live` are the blocks in use, and `leaked` the pages that hold a
      reference nothing will drop. */
  datatype Heap = Heap(mapped: map<nat, bool>, ref: map<nat, nat>, mptr: nat, live: map<nat, Chunk>, leaked: set<nat>)

  /** ROUNDUP(n, 4) in 32-bit arithmetic. */
  function RoundUp4(n: nat): nat { var m := (n + 3) % 0x1_0000_0000; m - m % 4 }

  /** The rounded size covers the request except for the last three sizes, which wrap to zero. */
  lemma RoundUpCovers(n: nat)
    requires n < 0x1_0000_0000
    ensures RoundUp4(n) % 4 == 0 && (n <= RoundUp4(n) <==> n <= 0xFFFF_FFFC)
    ensures n > 0xFFFF_FFFC ==> RoundUp4(n) == 0
  {
    if n > 0xFFFF_FFFC {
      assert n + 3 - 0x1_0000_0000 < 4;
      assert (n + 3) % 0x1_0000_0000 == n + 3 - 0x1_0000_0000;
    } else {
      assert (n + 3) % 0x1_0000_0000 == n + 3;
    }
  }

  function Users(live: map<nat, Chunk>, p: nat): set<nat> { set x | x in live && Last(live[x]) == p }

  /** The bump pointer is inside page p. */
  predicate Open(mptr: nat, p: nat) { mptr % PG != 0 && mptr / PG == p }

  predicate ChunkOk(mapped: map<nat, bool>, c: Chunk) {
    && MBEGIN <= c.a && c.a % 4 == 0 && c.n % 4 == 0
    && (c.a / PG < Last(c) ==> c.a % PG == 0)
    && (forall p :: c.a / PG <= p < Last(c) ==> p in mapped && mapped[p])
    && Last(c) in mapped && !mapped[Last(c)]
  }

  predicate Apart(c: Chunk, d: Chunk) { c.n == 0 || d.n == 0 || c.a + c.n <= d.a || d.a + d.n <= c.a }

  predicate CountOk(h: Heap, p: nat) {
    p in h.mapped && !h.mapped[p] ==>
      && p in h.ref
      && h.ref[p] == |Users(h.live, p)| + (if Open(h.mptr, p) then 1 else 0) + (if p in h.leaked then 1 else 0)
      && h.ref[p] > 0
  }

  ghost predicate ChunksOk(h: Heap) { forall x :: x in h.live ==> ChunkOk(h.mapped, h.live[x]) }

  ghost predicate AllApart(h: Heap) {
    forall x, y :: x in h.live && y in h.live && x != y ==> Apart(h.live[x], h.live[y])
  }

  ghost predicate CountsOk(h: Heap) { forall p: nat :: CountOk(h, p) }

  ghost predicate PagesOk(h: Heap) {
    && (forall p :: p in h.mapped ==> FIRST <= p < END)
    && (forall p :: p in h.leaked ==> p in h.mapped && !h.mapped[p])
  }

  /** The bump pointer: in the arena, and past every chunk of the page it is inside. */
  ghost predicate PtrOk(h: Heap) {
    && (h.mptr == 0 || MBEGIN <= h.mptr <= MEND) && h.mptr % 4 == 0
    && (h.mptr % PG != 0 ==> h.mptr / PG in h.mapped && !h.mapped[h.mptr / PG])
    && (forall x :: x in h.live && Open(h.mptr, Last(h.live[x])) ==> h.live[x].a + h.live[x].n <= h.mptr)
  }

  predicate Within(p: nat, b: nat, e: nat) { b <= p <= e }

  function Between(b: nat, e: nat): set<nat> { set p: nat | b <= p < e && Within(p, b, e) }

  /** The continued pages of a chunk: all it touches but the one that counts it. */
  function Contd(c: Chunk): set<nat> { Between(c.a / PG, Last(c)) }

  predicate Owned(live: map<nat, Chunk>, p: nat) { exists x :: x in live && p in Contd(live[x]) }

  ghost predicate AllOwned(h: Heap) { forall p :: p in h.mapped && h.mapped[p] ==> Owned(h.live, p) }

  ghost predicate Inv(h: Heap) {
    ChunksOk(h) && AllApart(h) && CountsOk(h) && PagesOk(h) && PtrOk(h) && AllOwned(h)
  }

  /** Once every block is freed, only the page being filled and the leaked ones are mapped. */
  lemma NothingLiveNothingHeld(h: Heap, p: nat)
    requires Inv(h) && h.live == map[]
    ensures p in h.mapped <==> Open(h.mptr, p) || p in h.leaked
  {
    assert CountOk(h, p);
    assert Users(h.live, p) == {};
  }

  lemma OwnedStays(live: map<nat, Chunk>, x: nat, c: Chunk, p: nat)
    requires x !in live && Owned(live, p)
    ensures Owned(live[x := c], p)
  {
    var y :| y in live && p in Contd(live[y]);
    assert live[x := c][y] == live[y];
  }

  /** Every chunk lies in the arena, below the count word of its last page. */
  lemma ChunkBounds(h: Heap, x: nat)
    requires Inv(h) && x in h.live
    ensures var c := h.live[x]; MBEGIN <= c.a && c.a + c.n + 4 <= (Last(c) + 1) * PG <= MEND && c.a / PG <= Last(c)
    ensures forall p :: h.live[x].a / PG <= p <= Last(h.live[x]) ==> p in h.mapped
  {
    assert ChunkOk(h.mapped, h.live[x]);
  }

  lemma UsersAdd(live: map<nat, Chunk>, x: nat, c: Chunk, p: nat)
    requires x !in live
    ensures |Users(live[x := c], p)| == |Users(live, p)| + (if Last(c) == p then 1 else 0)
  {
    assert Users(live[x := c], p) == Users(live, p) + (if Last(c) == p then {x} else {});
  }

  lemma UsersRemove(live: map<nat, Chunk>, x: nat, p: nat)
    requires x in live
    ensures |Users(live - {x}, p)| == |Users(live, p)| - (if Last(live[x]) == p then 1 else 0)
  {
    assert Users(live - {x}, p) == Users(live, p) - {x};
  }

  /* ---- adding to the page the bump pointer is in ---- */

  predicate FitsOpen(mptr: nat, n: nat) { mptr % PG != 0 && mptr / PG == (mptr + n + 3) / PG }

  function Grown(h: Heap, x: nat, n: nat): Heap
    requires h.mptr / PG in h.ref
  {
    var p := h.mptr / PG;
    h.(ref := h.ref[p := h.ref[p] + 1], live := h.live[x := Chunk(h.mptr, n)], mptr := h.mptr + n)
  }

  lemma GrownCounts(h: Heap, x: nat, n: nat, q: nat)
    requires CountOk(h, q) && x !in h.live && n % 4 == 0 && FitsOpen(h.mptr, n) && h.mptr / PG in h.ref
    ensures CountOk(Grown(h, x, n), q)
  {
    UsersAdd(h.live, x, Chunk(h.mptr, n), q);
    assert Open(h.mptr + n, q) <==> Open(h.mptr, q);
  }

  lemma GrownKeeps(h: Heap, x: nat, n: nat)
    requires Inv(h) && x !in h.live && n % 4 == 0 && FitsOpen(h.mptr, n)
    ensures h.mptr / PG in h.ref && Inv(Grown(h, x, n))
  {
    var p := h.mptr / PG;
    assert CountOk(h, p);
    var h', c := Grown(h, x, n), Chunk(h.mptr, n);
    GrownPtr(h, x, n);
    GrownChunks(h, x, n);
    forall q: nat ensures CountOk(h', q) {
      assert CountOk(h, q);
      GrownCounts(h, x, n, q);
    }
    forall q | q in h'.mapped && h'.mapped[q] ensures Owned(h'.live, q) { OwnedStays(h.live, x, c, q); }
    AddApart(h, h', x, c) by {
      forall y | y in h.live ensures Apart(h.live[y], c) && Apart(c, h.live[y]) { OpenApart(h, y, n); }
    }
  }

  lemma StaysInPage(mptr: nat, n: nat)
    requires mptr % 4 == 0 && n % 4 == 0 && FitsOpen(mptr, n)
    ensures (mptr + n) / PG == mptr / PG && (mptr + n) % PG != 0 && (mptr + n) % 4 == 0
    ensures Last(Chunk(mptr, n)) == mptr / PG
  {
    var p, r := mptr / PG, mptr % PG;
    assert mptr == PG * p + r && r + n + 3 < PG;
    InPage(p, r + n);
  }

  lemma InPage(p: nat, r: nat)
    requires r < PG
    ensures (PG * p + r) / PG == p && (PG * p + r) % PG == r
  {}

  lemma GrownPtr(h: Heap, x: nat, n: nat)
    requires PtrOk(h) && x !in h.live && n % 4 == 0 && FitsOpen(h.mptr, n) && h.mptr / PG in h.ref
    ensures PtrOk(Grown(h, x, n))
  {
    var h', p := Grown(h, x, n), h.mptr / PG;
    StaysInPage(h.mptr, n);
    forall y | y in h'.live && Open(h'.mptr, Last(h'.live[y])) ensures h'.live[y].a + h'.live[y].n <= h'.mptr {
      if y != x { assert Open(h.mptr, Last(h.live[y])); }
    }
  }

  lemma GrownChunks(h: Heap, x: nat, n: nat)
    requires ChunksOk(h) && PtrOk(h) && x !in h.live && n % 4 == 0 && FitsOpen(h.mptr, n) && h.mptr / PG in h.ref
    ensures ChunksOk(Grown(h, x, n))
  {
    StaysInPage(h.mptr, n);
    assert ChunkOk(h.mapped, Chunk(h.mptr, n));
  }

  lemma AddApart(h: Heap, h': Heap, x: nat, c: Chunk)
    requires AllApart(h) && x !in h.live && h'.live == h.live[x := c]
    requires forall y :: y in h.live ==> Apart(h.live[y], c) && Apart(c, h.live[y])
    ensures AllApart(h')
  {}

  /** A chunk placed at the bump pointer is apart from every live one. */
  lemma OpenApart(h: Heap, y: nat, n: nat)
    requires y in h.live && ChunkOk(h.mapped, h.live[y]) && PtrOk(h) && FitsOpen(h.mptr, n)
    ensures Apart(h.live[y], Chunk(h.mptr, n)) && Apart(Chunk(h.mptr, n), h.live[y])
  {
    var d, p := h.live[y], h.mptr / PG;
    assert !(d.a / PG <= p < Last(d));
  }

  /* ---- dropping the bump pointer's reference ---- */

  function Dropped(h: Heap): Heap
    requires h.mptr / PG in h.ref && h.ref[h.mptr / PG] > 0
  {
    var p := h.mptr / PG;
    var next := (p + 1) * PG;
    if h.ref[p] == 1 then h.(mapped := h.mapped - {p}, ref := h.ref - {p}, mptr := next)
    else h.(ref := h.ref[p := h.ref[p] - 1], mptr := next)
  }

  lemma Boundary(p: nat)
    ensures (p + 1) * PG % PG == 0 && (p + 1) * PG % 4 == 0
  {
    Shift(p + 1, 0);
    Aligned4((p + 1) * PG);
  }

  lemma DroppedChunk(h: Heap, y: nat)
    requires ChunksOk(h) && y in h.live && h.mptr % PG != 0 && CountOk(h, h.mptr / PG)
    requires h.mptr / PG in h.mapped && !h.mapped[h.mptr / PG] && h.ref[h.mptr / PG] == 1
    ensures ChunkOk(h.mapped - {h.mptr / PG}, h.live[y])
  {
    var p := h.mptr / PG;
    assert Users(h.live, p) == {};
    assert y !in Users(h.live, p) && ChunkOk(h.mapped, h.live[y]);
  }

  lemma DroppedKeeps(h: Heap)
    requires Inv(h) && h.mptr % PG != 0
    ensures h.mptr / PG in h.ref && h.ref[h.mptr / PG] > 0 && Inv(Dropped(h))
  {
    var p := h.mptr / PG;
    assert CountOk(h, p);
    Boundary(p);
    var h' := Dropped(h);
    forall q: nat ensures CountOk(h', q) { assert CountOk(h, q); }
    if h.ref[p] == 1 {
      forall y | y in h.live ensures ChunkOk(h'.mapped, h'.live[y]) { DroppedChunk(h, y); }
    }
  }

  /* ---- a fresh run of pages ---- */

  /** Pages b to e have room for a chunk of n bytes and the count word. */
  ghost predicate Vacant(h: Heap, n: nat) {
    && h.mptr % PG == 0 && MBEGIN <= h.mptr && (h.mptr + n + 3) / PG < END
    && forall p :: h.mptr / PG <= p <= (h.mptr + n + 3) / PG ==> p !in h.mapped
  }

  /** The entries of a fresh run: all continued but the last. */
  function Run(b: nat, e: nat): map<nat, bool> { map p: nat | b <= p <= e && Within(p, b, e) :: p < e }

  /** The page table with the run for n bytes at a mapped. */
  function WithRun(mapped: map<nat, bool>, a: nat, n: nat): map<nat, bool> { mapped + Run(a / PG, (a + n + 3) / PG) }

  function Fresh(h: Heap, x: nat, n: nat): Heap {
    var last := (h.mptr + n + 3) / PG;
    Heap(WithRun(h.mapped, h.mptr, n), h.ref[last := 2], h.mptr + n, h.live[x := Chunk(h.mptr, n)],
         if n % PG == 0 then h.leaked + {last} else h.leaked)
  }

  lemma Aligned4(a: nat)
    requires a % PG == 0
    ensures a % 4 == 0
  {
    assert a == 4 * (1024 * (a / PG));
  }

  lemma SumAligned(a: nat, n: nat)
    requires a % 4 == 0 && n % 4 == 0
    ensures (a + n) % 4 == 0
  {}

  lemma FreshGeometry(a: nat, n: nat)
    requires a % PG == 0 && n % 4 == 0
    ensures var last := (a + n + 3) / PG;
            && a / PG <= last && last * PG <= a + n < (last + 1) * PG && a % 4 == 0 && (a + n) % 4 == 0
            && (n % PG != 0 ==> (a + n) / PG == last && (a + n) % PG != 0) && (n % PG == 0 ==> (a + n) % PG == 0)
  {
    RunEdges(a, n, a / PG, n / PG, n % PG);
    Aligned4(a);
    SumAligned(a, n);
  }

  lemma RunEdges(a: nat, n: nat, q: nat, k: nat, r: nat)
    requires a == q * PG && n == k * PG + r && r < PG && r == n % PG && n % 4 == 0
    ensures (a + n + 3) / PG == q + k && (a + n) / PG == q + k && (a + n) % PG == r
  {
    Remainders(n);
    Shift(q, n);
    Shift(q, n + 3);
  }

  lemma Shift(q: nat, n: nat)
    ensures (q * PG + n) / PG == q + n / PG && (q * PG + n) % PG == n % PG
  {}

  /** Adding the count word's slack to a multiple of four crosses into no new page. */
  lemma Remainders(n: nat)
    requires n % 4 == 0
    ensures (n + 3) / PG == n / PG
  {}

  lemma FreshCounts(h: Heap, x: nat, n: nat, q: nat)
    requires ChunksOk(h) && PagesOk(h) && CountOk(h, q) && x !in h.live && n % 4 == 0 && Vacant(h, n)
    ensures CountOk(Fresh(h, x, n), q)
  {
    FreshGeometry(h.mptr, n);
    UsersAdd(h.live, x, Chunk(h.mptr, n), q);
    var last := (h.mptr + n + 3) / PG;
    if q == last {
      forall y | y in h.live ensures y !in Users(h.live, last) { NoneAtLast(h, n, y); }
      assert Users(h.live, last) == {};
    }
  }

  lemma FreshApart(h: Heap, y: nat, n: nat)
    requires Inv(h) && y in h.live && n % 4 == 0 && Vacant(h, n)
    ensures Apart(h.live[y], Chunk(h.mptr, n)) && Apart(Chunk(h.mptr, n), h.live[y])
  {
    ChunkBounds(h, y);
    var d, b, e := h.live[y], h.mptr / PG, (h.mptr + n + 3) / PG;
    var m := if d.a / PG <= b then b else d.a / PG;
    assert d.a / PG <= m <= Last(d) ==> m in h.mapped;
    assert b <= m <= e ==> m !in h.mapped;
    assert Last(d) < b || d.a / PG > e;
  }

  lemma FreshMapped(h: Heap, x: nat, n: nat, q: nat)
    requires h.mptr % PG == 0 && n % 4 == 0
    ensures var b, last := h.mptr / PG, (h.mptr + n + 3) / PG; var m := Fresh(h, x, n).mapped;
            && (q in m <==> q in h.mapped || b <= q <= last) && (b <= q <= last ==> m[q] == (q < last))
            && (q in h.mapped && !(b <= q <= last) ==> m[q] == h.mapped[q])
  {}

  lemma NoneAtLast(h: Heap, n: nat, y: nat)
    requires ChunksOk(h) && y in h.live && n % 4 == 0 && Vacant(h, n)
    ensures Last(h.live[y]) != (h.mptr + n + 3) / PG
  {
    FreshGeometry(h.mptr, n);
    assert ChunkOk(h.mapped, h.live[y]);
  }

  lemma FreshEnd(h: Heap, x: nat, n: nat)
    requires n % 4 == 0 && Vacant(h, n)
    ensures var m := Fresh(h, x, n).mptr; MBEGIN <= m <= MEND && m % 4 == 0
    ensures var m, last := Fresh(h, x, n).mptr, (h.mptr + n + 3) / PG; m % PG != 0 ==> m / PG == last
  {
    FreshGeometry(h.mptr, n);
  }

  lemma FreshPtr(h: Heap, x: nat, n: nat)
    requires ChunksOk(h) && x !in h.live && n % 4 == 0 && Vacant(h, n)
    ensures PtrOk(Fresh(h, x, n))
  {
    var h', last := Fresh(h, x, n), (h.mptr + n + 3) / PG;
    FreshEnd(h, x, n);
    FreshMapped(h, x, n, last);
    forall y | y in h'.live && Open(h'.mptr, Last(h'.live[y])) ensures h'.live[y].a + h'.live[y].n <= h'.mptr {
      if y != x { NoneAtLast(h, n, y); }
    }
  }

  lemma FreshPages(h: Heap, x: nat, n: nat)
    requires PagesOk(h) && x !in h.live && n % 4 == 0 && Vacant(h, n)
    ensures PagesOk(Fresh(h, x, n))
  {
    var h' := Fresh(h, x, n);
    FreshGeometry(h.mptr, n);
    forall q | q in h'.mapped ensures FIRST <= q < END { FreshMapped(h, x, n, q); }
    forall q | q in h'.leaked ensures q in h'.mapped && !h'.mapped[q] { FreshMapped(h, x, n, q); }
  }

  lemma FreshOwn(h: Heap, x: nat, n: nat)
    requires n % 4 == 0 && h.mptr % PG == 0 && MBEGIN <= h.mptr
    ensures ChunkOk(Fresh(h, x, n).mapped, Chunk(h.mptr, n))
  {
    var c, m := Chunk(h.mptr, n), Fresh(h, x, n).mapped;
    FreshGeometry(h.mptr, n);
    forall q | c.a / PG <= q <= Last(c) ensures q in m && m[q] == (q < Last(c)) { FreshMapped(h, x, n, q); }
  }

  lemma FreshOther(h: Heap, x: nat, n: nat, y: nat)
    requires y in h.live && ChunkOk(h.mapped, h.live[y]) && n % 4 == 0 && Vacant(h, n)
    ensures ChunkOk(Fresh(h, x, n).mapped, h.live[y])
  {
    var d, m := h.live[y], Fresh(h, x, n).mapped;
    forall q | d.a / PG <= q <= Last(d) ensures q in m && m[q] == h.mapped[q] { FreshMapped(h, x, n, q); }
  }

  lemma FreshOwned(h: Heap, x: nat, n: nat, q: nat)
    requires AllOwned(h) && x !in h.live && n % 4 == 0 && Vacant(h, n)
    requires q in Fresh(h, x, n).mapped && Fresh(h, x, n).mapped[q]
    ensures Owned(Fresh(h, x, n).live, q)
  {
    var c := Chunk(h.mptr, n);
    FreshMapped(h, x, n, q);
    if q in h.mapped && h.mapped[q] {
      OwnedStays(h.live, x, c, q);
    } else {
      assert h.live[x := c][x] == c && q in Contd(c);
    }
  }

  lemma FreshKeeps(h: Heap, x: nat, n: nat)
    requires Inv(h) && x !in h.live && n % 4 == 0 && Vacant(h, n)
    ensures Inv(Fresh(h, x, n))
  {
    var h', c := Fresh(h, x, n), Chunk(h.mptr, n);
    FreshPtr(h, x, n);
    FreshPages(h, x, n);
    forall y | y in h'.live ensures ChunkOk(h'.mapped, h'.live[y]) {
      if y == x { FreshOwn(h, x, n); } else { FreshOther(h, x, n, y); }
    }
    forall q: nat ensures CountOk(h', q) {
      assert CountOk(h, q);
      FreshCounts(h, x, n, q);
    }
    forall q | q in h'.mapped && h'.mapped[q] ensures Owned(h'.live, q) { FreshOwned(h, x, n, q); }
    AddApart(h, h', x, c) by {
      forall y | y in h.live ensures Apart(h.live[y], c) && Apart(c, h.live[y]) { FreshApart(h, y, n); }
    }
  }

  /** Page p has a reference that neither its blocks nor the open pointer account for. */
  predicate Surplus(h: Heap, p: nat) {
    p in h.ref && h.ref[p] > |Users(h.live, p)| + (if Open(h.mptr, p) then 1 else 0)
  }

  lemma SurplusIff(h: Heap, p: nat)
    requires CountOk(h, p) && p in h.mapped && !h.mapped[p]
    ensures Surplus(h, p) <==> p in h.leaked
  {}

  /** A run for a whole number of pages leaves a reference on its last page that nothing drops. */
  lemma FreshLeaks(h: Heap, x: nat, n: nat)
    requires Inv(h) && x !in h.live && n % 4 == 0 && Vacant(h, n)
    ensures Fresh(h, x, n).leaked == h.leaked <==> n % PG != 0
    ensures Surplus(Fresh(h, x, n), (h.mptr + n + 3) / PG) <==> n % PG == 0
  {
    var h', last := Fresh(h, x, n), (h.mptr + n + 3) / PG;
    assert last !in h.leaked by { FreshGeometry(h.mptr, n); }
    FreshKeeps(h, x, n);
    FreshLast(h, x, n, last);
    SurplusIff(h', last);
  }

  lemma FreshLast(h: Heap, x: nat, n: nat, last: nat)
    requires CountsOk(Fresh(h, x, n)) && n % 4 == 0 && Vacant(h, n) && last == (h.mptr + n + 3) / PG
    ensures var h' := Fresh(h, x, n); CountOk(h', last) && last in h'.mapped && !h'.mapped[last]
  {
    FreshGeometry(h.mptr, n);
    FreshMapped(h, x, n, last);
  }

  /* ---- free ---- */

  function Freed(h: Heap, x: nat): Heap
    requires x in h.live && Last(h.live[x]) in h.ref && h.ref[Last(h.live[x])] > 0
  {
    var c := h.live[x];
    var p := Last(c);
    var h1 := h.(mapped := h.mapped - Contd(c), live := h.live - {x});
    if h.ref[p] == 1 then h1.(mapped := h1.mapped - {p}, ref := h.ref - {p}) else h1.(ref := h.ref[p := h.ref[p] - 1])
  }

  /** The continued pages of a live chunk belong to it alone. */
  lemma ContdExclusive(h: Heap, x: nat, y: nat, p: nat)
    requires Inv(h) && x in h.live && y in h.live && x != y && p in Contd(h.live[x])
    ensures !(h.live[y].a / PG <= p <= Last(h.live[y]))
  {
    var c, d := h.live[x], h.live[y];
    assert ChunkOk(h.mapped, c) && ChunkOk(h.mapped, d) && Apart(c, d);
    if d.a / PG <= p <= Last(d) {
      assert p < Last(d);
      Covers(c, p);
      Covers(d, p);
      assert false;
    }
  }

  lemma Covers(c: Chunk, p: nat)
    requires c.a % PG == 0 && c.n % 4 == 0 && c.a / PG <= p < Last(c)
    ensures c.a <= p * PG && (p + 1) * PG <= c.a + c.n
  {
    FreshGeometry(c.a, c.n);
  }

  lemma FreedCounts(h: Heap, x: nat, q: nat)
    requires x in h.live && ChunkOk(h.mapped, h.live[x]) && CountOk(h, q) && Last(h.live[x]) in h.ref
    requires h.ref[Last(h.live[x])] > 0
    ensures CountOk(Freed(h, x), q)
  {
    UsersRemove(h.live, x, q);
  }

  /** A page of another live chunk stays mapped as it is. */
  lemma FreedPage(h: Heap, x: nat, y: nat, q: nat)
    requires Inv(h) && x in h.live && y in h.live && x != y && Last(h.live[x]) in h.ref && h.ref[Last(h.live[x])] > 0
    requires h.live[y].a / PG <= q <= Last(h.live[y]) && q in h.mapped
    ensures q in Freed(h, x).mapped && Freed(h, x).mapped[q] == h.mapped[q]
  {
    if q in Contd(h.live[x]) { ContdExclusive(h, x, y, q); }
    if q == Last(h.live[x]) && h.ref[q] == 1 { LastUser(h, x, y); }
  }

  lemma FreedChunk(h: Heap, x: nat, y: nat)
    requires Inv(h) && x in h.live && y in h.live && x != y && Last(h.live[x]) in h.ref && h.ref[Last(h.live[x])] > 0
    ensures ChunkOk(Freed(h, x).mapped, h.live[y])
  {
    var c := h.live[y];
    assert ChunkOk(h.mapped, c);
    FreedPage(h, x, y, Last(c));
    forall q | c.a / PG <= q < Last(c)
      ensures q in Freed(h, x).mapped && Freed(h, x).mapped[q]
    {
      FreedPage(h, x, y, q);
    }
  }

  lemma FreedPages(h: Heap, x: nat)
    requires PagesOk(h) && PtrOk(h) && CountsOk(h) && x in h.live && ChunkOk(h.mapped, h.live[x])
    requires Last(h.live[x]) in h.ref && h.ref[Last(h.live[x])] > 0
    ensures PagesOk(Freed(h, x)) && PtrOk(Freed(h, x))
  {
    var p := Last(h.live[x]);
    assert CountOk(h, p);
    assert x in Users(h.live, p);
    assert |Users(h.live, p)| > 0;
    assert h.ref[p] == 1 ==> p !in h.leaked && !Open(h.mptr, p);
  }

  lemma FreedOwned(h: Heap, x: nat, q: nat)
    requires AllOwned(h) && x in h.live && q in h.mapped && h.mapped[q] && q !in Contd(h.live[x])
    ensures Owned(h.live - {x}, q)
  {
    var y :| y in h.live && q in Contd(h.live[y]);
    assert (h.live - {x})[y] == h.live[y];
  }

  lemma FreedKeeps(h: Heap, x: nat)
    requires Inv(h) && x in h.live
    ensures Last(h.live[x]) in h.ref && h.ref[Last(h.live[x])] > 0 && Inv(Freed(h, x))
  {
    assert ChunkOk(h.mapped, h.live[x]) && CountOk(h, Last(h.live[x]));
    var h' := Freed(h, x);
    FreedPages(h, x);
    forall q: nat ensures CountOk(h', q) {
      assert CountOk(h, q);
      FreedCounts(h, x, q);
    }
    forall q | q in h'.mapped && h'.mapped[q] ensures Owned(h'.live, q) { FreedOwned(h, x, q); }
    forall y | y in h'.live ensures ChunkOk(h'.mapped, h'.live[y]) { FreedChunk(h, x, y); }
  }

  /** When the count is one, the chunk being freed is the only user of its last page. */
  lemma LastUser(h: Heap, x: nat, y: nat)
    requires Inv(h) && x in h.live && y in h.live && x != y
    requires Last(h.live[x]) in h.ref && h.ref[Last(h.live[x])] == 1
    ensures !(h.live[y].a / PG <= Last(h.live[x]) <= Last(h.live[y]))
  {
    var p := Last(h.live[x]);
    assert CountOk(h, p) && ChunkOk(h.mapped, h.live[x]) && ChunkOk(h.mapped, h.live[y]);
    assert x in Users(h.live, p);
    assert |Users(h.live, p) - {x}| == 0;
    assert y !in Users(h.live, p) - {x};
  }

  /* ---- the allocator ---- */

  /** Moving the pointer between page boundaries changes no count. */
  lemma MovedKeeps(h: Heap, m: nat)
    requires Inv(h) && h.mptr % PG == 0 && m % PG == 0 && MBEGIN <= m <= MEND
    ensures Inv(h.(mptr := m))
  {
    Aligned4(m);
    forall q: nat ensures CountOk(h.(mptr := m), q) { assert CountOk(h, q); }
  }

  /** A run of pages for n bytes and a count word, starting at page b, is unmapped and inside the arena. */
  ghost predicate RunFree(mapped: map<nat, bool>, b: nat, n: nat) {
    var e := b + (n + 3) / PG;
    e < END && forall p :: b <= p <= e ==> p !in mapped
  }

  lemma AlignedEnd(a: nat, n: nat)
    requires a % PG == 0
    ensures (a + n + 3) / PG == a / PG + (n + 3) / PG
  {
    assert a == a / PG * PG;
  }

  /** The entries below page e of a fresh run from b to last. */
  function RunPart(b: nat, e: nat, last: nat): map<nat, bool> {
    map q: nat | b <= q < e && Within(q, b, e) :: q < last
  }

  lemma RunNone(m: map<nat, bool>, b: nat, last: nat)
    ensures m + RunPart(b, b, last) == m
  {}

  lemma RunGrows(m: map<nat, bool>, b: nat, e: nat, last: nat)
    requires b <= e
    ensures (m + RunPart(b, e, last))[e := e < last] == m + RunPart(b, e + 1, last)
  {
    assert RunPart(b, e, last)[e := e < last] == RunPart(b, e + 1, last);
  }

  lemma RunUndone(m: map<nat, bool>, b: nat, e: nat, last: nat)
    requires b <= e <= last && forall q :: b <= q <= last ==> q !in m
    ensures (m + RunPart(b, e, last)) - Between(b, e + 1) == m
  {}

  lemma RunWhole(b: nat, last: nat)
    requires b <= last
    ensures RunPart(b, last + 1, last) == Run(b, last)
  {}

  lemma RunStep(i: nat, n: nat)
    requires i * PG < n + 4
    ensures i <= (n + 3) / PG && ((i + 1) * PG < n + 4 <==> i < (n + 3) / PG)
  {}

  lemma RunEnd(i: nat, n: nat)
    requires n + 4 <= i * PG && i <= (n + 3) / PG + 1
    ensures i == (n + 3) / PG + 1
  {}

  ghost predicate SpaceLeft(mapped: map<nat, bool>, n: nat) { exists b :: FIRST <= b < END && RunFree(mapped, b, n) }

  /** The pages mapped when malloc starts to search: it has left the page it was filling. */
  function Searched(h: Heap): map<nat, bool>
    requires h.mptr % PG != 0 ==> h.mptr / PG in h.ref && h.ref[h.mptr / PG] > 0
  {
    if h.mptr % PG != 0 then Dropped(h).mapped else h.mapped
  }

  lemma OpenCounted(h: Heap)
    requires Inv(h)
    ensures h.mptr % PG != 0 ==> h.mptr / PG in h.ref && h.ref[h.mptr / PG] > 0
  {
    assert CountOk(h, h.mptr / PG);
  }

  /** malloc has to look for a run, and does so inside the arena. */
  predicate MustSearch(mptr: nat, n: nat) { n < MAXMALLOC && !FitsOpen(mptr, n) && !StartsPastEnd(mptr, n) }

  ghost predicate FindsSpace(h: Heap, n: nat) { Inv(h) && (OpenCounted(h); SpaceLeft(Searched(h), n)) }

  datatype Outcome = Block(a: nat) | TooLarge | NoSpace | NoMemory | RunsOff

  /** The search starts on the far side of the arena, where no page is ever free. */
  predicate StartsPastEnd(mptr: nat, n: nat) {
    !FitsOpen(mptr, n) && mptr / PG + (if mptr % PG == 0 then 0 else 1) == END
  }

  class Allocator {
    var mapped: map<nat, bool>
    var ref: map<nat, nat>
    var mptr: nat
    ghost var live: map<nat, Chunk>
    ghost var leaked: set<nat>

    ghost function H(): Heap reads this { Heap(mapped, ref, mptr, live, leaked) }

    constructor ()
      ensures Inv(H()) && H() == Heap(map[], map[], 0, map[], {})
    {
      mapped, ref, mptr, live, leaked := map[], map[], 0, map[], {};
    }

    method IsFree(v: nat, n: nat) returns (ok: bool)
      requires v % PG == 0
      ensures ok <==> RunFree(mapped, v / PG, n)
    {
      var va := v;
      while va < v + n + 4
        invariant va % PG == 0 && v <= va
        invariant forall p :: v / PG <= p < va / PG ==> p < END && p !in mapped
      {
        if va >= MEND || va / PG in mapped {
          assert v / PG <= va / PG <= v / PG + (n + 3) / PG by { AlignedEnd(v, n); }
          return false;
        }
        va := va + PG;
      }
      AlignedEnd(v, n);
      assert v / PG + (n + 3) / PG < va / PG;
      assert v / PG + (n + 3) / PG !in mapped;
      return true;
    }

    /** free: unmaps the continued pages from v on, then drops a reference on page e after them. */
    method Free(v: nat, ghost e: nat)
      requires v != 0 ==> MBEGIN <= v && v / PG <= e < END && e in mapped && !mapped[e] && e in ref && ref[e] > 0
      requires v != 0 ==> forall p :: v / PG <= p < e ==> p in mapped && mapped[p]
      modifies `mapped, `ref
      ensures v == 0 ==> mapped == old(mapped) && ref == old(ref)
      ensures v != 0 && old(ref[e]) > 1 ==>
        mapped == old(mapped) - Between(v / PG, e) && ref == old(ref)[e := old(ref[e]) - 1]
      ensures v != 0 && old(ref[e]) == 1 ==>
        mapped == old(mapped) - Between(v / PG, e) - {e} && ref == old(ref) - {e}
    {
      if v == 0 { return; }
      var c: nat := v / PG;
      while mapped[c]
        invariant v / PG <= c <= e && mapped == old(mapped) - Between(v / PG, c)
        invariant e in mapped && !mapped[e] && ref == old(ref)
        invariant forall p :: c <= p < e ==> p in mapped && mapped[p]
        decreases e - c
      {
        mapped := mapped - {c};
        c := c + 1;
      }
      ref := ref[c := ref[c] - 1];
      if ref[c] == 0 { mapped, ref := mapped - {c}, ref - {c}; }
    }

    /** free as a client calls it, with the address of a block malloc handed out, or null. */
    method FreeBlock(v: nat, ghost x: nat)
      requires Inv(H()) && (v != 0 ==> x in live && live[x].a == v)
      modifies this
      ensures Inv(H()) && mptr == old(mptr) && leaked == old(leaked)
      ensures live == if v == 0 then old(live) else old(live) - {x}
    {
      ghost var h := H();
      if v != 0 {
        ChunkBounds(h, x);
        FreedKeeps(h, x);
        assert ChunkOk(h.mapped, h.live[x]);
      }
      Free(v, if v != 0 then Last(live[x]) else 0);
      if v != 0 {
        live := live - {x};
        assert H() == Freed(h, x);
      }
    }

    /** Walks page by page, twice round the arena at most, to a free run. */
    method Search(n: nat) returns (found: bool)
      requires mptr % PG == 0 && MBEGIN <= mptr < MEND
      modifies `mptr
      ensures mptr % PG == 0 && MBEGIN <= mptr < MEND
      ensures found ==> RunFree(mapped, mptr / PG, n)
      ensures !found ==> forall b :: FIRST <= b < END ==> !RunFree(mapped, b, n)
    {
      var nwrap := 0;
      ghost var start := mptr / PG;
      while true
        invariant mptr % PG == 0 && MBEGIN <= mptr < MEND && 0 <= nwrap <= 1
        invariant forall b :: (if nwrap == 0 then start else FIRST) <= b < mptr / PG ==> !RunFree(mapped, b, n)
        decreases 2 - nwrap, MEND - mptr
      {
        var ok := IsFree(mptr, n);
        if ok { return true; }
        mptr := mptr + PG;
        if mptr == MEND {
          mptr := MBEGIN;
          nwrap := nwrap + 1;
          if nwrap == 2 { return false; }
        }
      }
    }

    /** Maps pages of the run at mptr until all are mapped or no more memory can be had. */
    method MapPages(n: nat, avail: nat, b: nat, ghost last: nat) returns (i: nat, e: nat)
      requires last == b + (n + 3) / PG
      modifies `mapped
      ensures i == if (n + 3) / PG < avail then (n + 3) / PG + 1 else avail
      ensures e == b + i && mapped == old(mapped) + RunPart(b, e, last)
    {
      i, e := 0, b;
      ghost var m := mapped;
      RunNone(m, b, last);
      while i * PG < n + 4 && i < avail
        invariant e == b + i && e <= last + 1 && i <= avail && mapped == m + RunPart(b, e, last)
      {
        RunStep(i, n);
        RunGrows(m, b, e, last);
        MapOne(e, (i + 1) * PG < n + 4);
        i, e := i + 1, e + 1;
      }
      if i * PG < n + 4 { RunStep(i, n); } else { RunEnd(i, n); }
    }

    /** sys_page_alloc of one page of the run. */
    method MapOne(p: nat, cont: bool)
      modifies `mapped
      ensures mapped == old(mapped)[p := cont]
    {
      mapped := mapped[p := cont];
    }

    /** Maps the run at mptr, or undoes it when physical memory runs out after `avail` pages. */
    method MapRun(n: nat, avail: nat, ghost last: nat) returns (ok: bool)
      requires last == mptr / PG + (n + 3) / PG && forall p :: mptr / PG <= p <= last ==> p !in mapped
      modifies `mapped, `ref
      ensures ok <==> (n + 3) / PG < avail
      ensures !ok ==> mapped == old(mapped) && ref == old(ref)
      ensures ok && last == (mptr + n + 3) / PG ==> mapped == WithRun(old(mapped), mptr, n)
      ensures ok ==> ref == old(ref)[last := 2]
    {
      var b: nat := mptr / PG;
      ghost var m := mapped;
      var i, e := MapPages(n, avail, b, last);
      if i * PG < n + 4 {
        RunStep(i, n);
        RunUndone(m, b, e, last);
        Rollback(b, e);
        return false;
      }
      RunEnd(i, n);
      RunWhole(b, last);
      ref := ref[e - 1 := 2];
      return true;
    }

    /** Unmaps pages e down to b. */
    method Rollback(b: nat, e: nat)
      requires b <= e
      modifies `mapped
      ensures mapped == old(mapped) - Between(b, e + 1)
    {
      var i: int := e;
      while i >= b
        invariant b - 1 <= i <= e && mapped == old(mapped) - Between(i + 1, e + 1)
      {
        mapped := mapped - {i};
        i := i - 1;
      }
    }

    /** malloc. The block is recorded under the fresh identity x; `avail` is how many pages can be had. */
    method Malloc(n0: nat, avail: nat, ghost x: nat) returns (out: Outcome)
      requires Inv(H()) && x !in live && n0 < 0x1_0000_0000
      modifies this
      ensures Inv(H())
      ensures out.Block? ==> live == old(live)[x := Chunk(out.a, RoundUp4(n0))]
      ensures out.Block? ==> (leaked == old(leaked) <==> FitsOpen(old(mptr), RoundUp4(n0)) || RoundUp4(n0) % PG != 0)
      ensures !out.Block? ==> live == old(live) && leaked == old(leaked)
      ensures out.TooLarge? <==> RoundUp4(n0) >= MAXMALLOC
      ensures out.RunsOff? <==> RoundUp4(n0) < MAXMALLOC && StartsPastEnd(old(mptr), RoundUp4(n0))
      ensures out.NoSpace? <==> MustSearch(old(mptr), RoundUp4(n0)) && !FindsSpace(old(H()), RoundUp4(n0))
      ensures out.NoMemory? <==>
        MustSearch(old(mptr), RoundUp4(n0)) && FindsSpace(old(H()), RoundUp4(n0)) && avail <= (RoundUp4(n0) + 3) / PG
    {
      OpenCounted(H());
      if mptr == 0 { MovedKeeps(H(), MBEGIN); mptr := MBEGIN; }
      var n: nat := RoundUp4(n0);
      if n >= MAXMALLOC { return TooLarge; }
      if mptr % PG != 0 {
        if mptr / PG == (mptr + n + 3) / PG {
          var a: nat := mptr;
          Extend(n, x);
          return Block(a);
        }
        Drop();
      }
      if mptr == MEND { return RunsOff; }
      out := Place(n, avail, x);
    }

    /** The bump: one more reference on the page, one more block in it. */
    method Extend(n: nat, ghost x: nat)
      requires Inv(H()) && x !in live && n % 4 == 0 && FitsOpen(mptr, n)
      modifies this
      ensures Inv(H()) && live == old(live)[x := Chunk(old(mptr), n)] && leaked == old(leaked)
    {
      ghost var h := H();
      GrownKeeps(h, x, n);
      ref := ref[mptr / PG := ref[mptr / PG] + 1];
      live := live[x := Chunk(mptr, n)];
      mptr := mptr + n;
      assert H() == Grown(h, x, n);
    }

    /** Leaves the page the pointer is inside. */
    method Drop()
      requires Inv(H()) && mptr % PG != 0
      modifies this
      ensures Inv(H()) && live == old(live) && leaked == old(leaked)
      ensures mptr == (old(mptr) / PG + 1) * PG
      ensures old(mptr / PG in ref && ref[mptr / PG] > 0) && mapped == Dropped(old(H())).mapped
    {
      ghost var h := H();
      DroppedKeeps(h);
      Free(mptr, mptr / PG);
      mptr := (mptr / PG + 1) * PG;
      assert Between(h.mptr / PG, h.mptr / PG) == {};
      assert H() == Dropped(h);
    }

    /** Finds, maps and opens a fresh run. */
    method Place(n: nat, avail: nat, ghost x: nat) returns (out: Outcome)
      requires Inv(H()) && x !in live && n % 4 == 0 && mptr % PG == 0 && MBEGIN <= mptr < MEND
      modifies this
      ensures Inv(H()) && (out.Block? || out.NoSpace? || out.NoMemory?)
      ensures out.Block? ==> live == old(live)[x := Chunk(out.a, n)] && (leaked == old(leaked) <==> n % PG != 0)
      ensures !out.Block? ==> live == old(live) && leaked == old(leaked)
      ensures out.NoSpace? <==> !SpaceLeft(old(mapped), n)
      ensures out.NoMemory? <==> SpaceLeft(old(mapped), n) && avail <= (n + 3) / PG
    {
      ghost var h0 := H();
      var found := Search(n);
      MovedKeeps(h0, mptr);
      if !found { return NoSpace; }
      AlignedEnd(mptr, n);
      out := OpenRun(n, avail, x);
    }

    method OpenRun(n: nat, avail: nat, ghost x: nat) returns (out: Outcome)
      requires Inv(H()) && x !in live && n % 4 == 0 && Vacant(H(), n)
      modifies this
      ensures Inv(H()) && (out.Block? || out.NoMemory?)
      ensures out.Block? ==> live == old(live)[x := Chunk(out.a, n)] && (leaked == old(leaked) <==> n % PG != 0)
      ensures out.NoMemory? ==> live == old(live) && leaked == old(leaked)
      ensures out.NoMemory? <==> avail <= (n + 3) / PG
    {
      FreshKeeps(H(), x, n);
      FreshLeaks(H(), x, n);
      out := CommitRun(n, avail, x);
    }

    method CommitRun(n: nat, avail: nat, ghost x: nat) returns (out: Outcome)
      requires Vacant(H(), n)
      modifies this
      ensures out == if (n + 3) / PG < avail then Block(old(mptr)) else NoMemory
      ensures H() == if out.Block? then Fresh(old(H()), x, n) else old(H())
    {
      AlignedEnd(mptr, n);
      ghost var h' := Fresh(H(), x, n);
      var ok := MapRun(n, avail, (mptr + n + 3) / PG);
      if !ok { return NoMemory; }
      out := Block(mptr);
      mptr, live, leaked := mptr + n, h'.live, h'.leaked;
      assert mapped == h'.mapped;
      assert ref == h'.ref;
    }
  }

  /* ---- inputs ---- */

  lemma ArenaFree(n: nat)
    requires n < MAXMALLOC
    ensures SpaceLeft(map[], n)
  {
    assert RunFree(map[], FIRST, n);
  }

  /** One page is asked for and freed: nothing is live, and a page stays mapped with a count of one. */
  method PageLeaks() returns (a: Allocator)
    ensures fresh(a) && Inv(a.H()) && a.live == map[] && a.leaked != {}
  {
    a := new Allocator();
    ArenaFree(PG);
    ghost var h := a.H();
    assert RoundUp4(PG) == PG && Searched(h) == map[] && MustSearch(h.mptr, PG) && FindsSpace(h, PG);
    var out := a.Malloc(PG, 2, 0);
    assert out.Block?;
    a.FreeBlock(out.a, 0);
    assert a.live == map[];
  }

  /** With the pointer at the end of the arena the search starts outside it. */
  method RunsOffEnd() returns (a: Allocator, out: Outcome)
    ensures fresh(a) && Inv(a.H()) && out == RunsOff
  {
    a := new Allocator();
    MovedKeeps(a.H(), MEND);
    a.mptr := MEND;
    out := a.Malloc(1, 2, 0);
  }
}
