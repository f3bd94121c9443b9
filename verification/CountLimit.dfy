/** A page whose 16-bit count is at its limit: one page mapped 65535 times over in one space. */
module CountLimit {
  import opened Sv48
  import opened PhysMem
  import opened Translation
  import opened Pmap

  /** Page 0 is the directory, 1 and 2 the tables under it, 3 to 130 leaf tables, 131 the page. */
  const NPAGES: nat := 132
  const SHARED: nat := 131

  function Words(t: nat): seq<nat> {
    seq(NPTENTRIES, i requires 0 <= i => Text(t, i))
  }

  function Text(t: nat, i: nat): nat {
    if t == 0 then if i == 0 then PteWord(1, 0) else 0
    else if t == 1 then if i == 0 then PteWord(2, 0) else 0
    else if t == 2 then if i < 128 then PteWord(3 + i, 0) else 0
    else if t < SHARED && !(t == 3 && i == 0) then PteWord(SHARED, 6)
    else 0
  }

  function Use(t: nat): nat { if t < 3 then t else if t < SHARED then 3 else DATA }

  function Full(): World {
    World(Mem(seq(NPAGES, t requires 0 <= t => Words(t)), seq(NPAGES, t requires 0 <= t => Use(t)), map[0 := 0], {}),
          seq(NPAGES, p requires 0 <= p => PageInfo(NULL, if p == SHARED then 0xFFFF else 1)), NULL, map[], 0)
  }

  /** The page each entry names. */
  function Named(t: nat, i: nat): int {
    if t == 0 && i == 0 then 1
    else if t == 1 && i == 0 then 2
    else if t == 2 && i < 128 then 3 + i
    else if 3 <= t < SHARED && !(t == 3 && i == 0) then SHARED
    else NULL
  }

  lemma Names(t: nat, i: nat)
    requires t < NPAGES && i < NPTENTRIES
    ensures Sized(Full().m) && Full().m.frames[t][i] == Text(t, i) && Target(Full().m, Entry(t, i)) == Named(t, i)
    ensures EntryOk(Full().m, t, i)
  {
    PteRoundTrip(1, 0);
    PteRoundTrip(2, 0);
    PteRoundTrip(SHARED, 6);
    if t == 2 && i < 128 { PteRoundTrip(3 + i, 0); }
    assert Full().m.frames[t] == Words(t);
  }

  /** The slot that names table p. */
  function Parent(p: nat): Slot { if p == 0 then Root(0) else if p < 3 then Entry(p - 1, 0) else Entry(2, p - 3) }

  lemma OneParent(p: nat)
    requires p < SHARED
    ensures Sized(Full().m) && Holders(Full().m, p) == {Parent(p)}
  {
    var m := Full().m;
    Names(0, 0);
    forall s: Slot ensures s in Holders(m, p) <==> s == Parent(p) {
      InHolders(m, s, p);
      if s.Entry? && s.t < NPAGES && s.i < NPTENTRIES { Names(s.t, s.i); }
    }
  }

  /** The first n entries, table by table. */
  function FirstEntries(n: nat): set<Slot> {
    if n == 0 then {} else FirstEntries(n - 1) + {Entry((n - 1) / NPTENTRIES, (n - 1) % NPTENTRIES)}
  }

  predicate Below(s: Slot, n: nat) { s.Entry? && s.i < NPTENTRIES && s.t * NPTENTRIES + s.i < n }

  lemma BelowNext(s: Slot, n: nat)
    ensures Below(s, n + 1) <==> Below(s, n) || s == Entry(n / NPTENTRIES, n % NPTENTRIES)
  {
    if s.Entry? && s.i < NPTENTRIES && s.t * NPTENTRIES + s.i == n { assert s.t == n / NPTENTRIES; }
  }

  lemma {:induction false} FirstEntriesAre(n: nat)
    ensures |FirstEntries(n)| == n && forall s: Slot :: s in FirstEntries(n) <==> Below(s, n)
  {
    if n > 0 {
      FirstEntriesAre(n - 1);
      var last := Entry((n - 1) / NPTENTRIES, (n - 1) % NPTENTRIES);
      assert !Below(last, n - 1);
      forall s: Slot ensures s in FirstEntries(n) <==> Below(s, n) { BelowNext(s, n - 1); }
    }
  }

  lemma SharedHolders()
    ensures Sized(Full().m) && |Holders(Full().m, SHARED)| == 0xFFFF
  {
    var m := Full().m;
    Names(0, 0);
    var all, low := FirstEntries(SHARED * NPTENTRIES), FirstEntries(3 * NPTENTRIES + 1);
    FirstEntriesAre(SHARED * NPTENTRIES);
    FirstEntriesAre(3 * NPTENTRIES + 1);
    forall s: Slot ensures s in Holders(m, SHARED) <==> s in all - low {
      InHolders(m, s, SHARED);
      if s.Entry? && s.t < NPAGES && s.i < NPTENTRIES { Names(s.t, s.i); }
    }
    assert Holders(m, SHARED) == all - low;
    assert low <= all;
  }

  lemma FullGood()
    ensures Good(Full(), NULL)
  {
    var w := Full();
    Names(0, 0);
    forall t, i | 0 <= t < NPAGES && 0 <= i < NPTENTRIES ensures EntryOk(w.m, t, i) { Names(t, i); }
    forall p | 0 <= p < NPAGES ensures w.pages[p].ref == |Holders(w.m, p)| {
      if p == SHARED { SharedHolders(); } else { OneParent(p); }
    }
  }

  lemma LeafOfZero()
    ensures Sized(Full().m) && Leaf(Full().m, 0, 0) == 3 && Pte(Full().m, 0, 0) == 0
  {
    Names(0, 0);
    Names(1, 0);
    Names(2, 0);
    Names(3, 0);
    assert PD0X(0) == 0 && PD1X(0) == 0 && PD2X(0) == 0 && PTX(0) == 0;
  }

  lemma WrapBreaks(w: World, e: nat, va: nat, t: nat, pp: nat, x: nat)
    requires Good(w, NULL) && t == Leaf(w.m, e, va) && t < |w.m.frames| && Pte(w.m, e, va) == 0
    requires pp < |w.pages| && pp !in w.free && x != 0 && Storable(w.m, x) && FrameOf(x) == pp
    requires w.pages[pp].ref == 0xFFFF
    ensures var w' := Wrapping(w, t, PTX(va), pp, x); !Good(w', NULL) && w'.pages[pp].ref == 0
  {
    InsertExactIffNoWrap(w, e, va, t, pp, x);
  }

  /** All is well with 65535 mappings, and one more, by the entry x, leaves a page in use with a count
      of 0. */
  lemma CountWraps(w: World, x: nat)
    requires w == Full() && x == PteWord(SHARED, 6)
    ensures Good(w, NULL) && Leaf(w.m, 0, 0) == 3 && Pte(w.m, 0, 0) == 0
    ensures var w' := Wrapping(w, 3, PTX(0), SHARED, x); !Good(w', NULL) && w'.pages[SHARED].ref == 0
  {
    FullGood();
    LeafOfZero();
    WordStorable(w.m, SHARED, 6);
    WrapBreaks(w, 0, 0, 3, SHARED, x);
  }
}
