/** Physical memory as the page-table code sees it, and the laws of its state.

    Every physical page has a PageInfo and, read as a table, 512 words.  `level`
    records what a page is used for: 0 is a page directory, 1 to 3 are tables, and
    4 is everything else (data, free, reserved).  A `Slot` is any place that can name
    a page: an entry of a table, or an environment's env_pgdir.  `lost` are the tables
    env_free walked away from: each keeps a reference that no place holds, which is
    accounted for as a slot of its own. */
module PhysMem {
  import opened Sv48

  datatype PageInfo = PageInfo(link: int, ref: nat)

  datatype Slot = Entry(t: nat, i: nat) | Root(e: nat) | Lost(p: nat)

  datatype Mem = Mem(frames: seq<seq<nat>>, level: seq<nat>, pgdir: map<nat, nat>, lost: set<nat>)

  const DATA: nat := 4
  const NULL: int := -1

  predicate Sized(m: Mem) {
    && |m.level| == |m.frames| <= MAXPAGES
    && (forall t :: 0 <= t < |m.frames| ==> |m.frames[t]| == NPTENTRIES)
    && (forall t :: 0 <= t < |m.level| ==> m.level[t] <= DATA)
  }

  /** The page a slot names, or NULL.  Entries of data pages and the top-level slots
      an environment does not own name nothing. */
  function Target(m: Mem, s: Slot): int
    requires Sized(m)
  {
    match s
    case Entry(t, i) =>
      if t < |m.frames| && i < NPTENTRIES && m.level[t] < DATA && (m.level[t] == 0 ==> Owned(i))
         && m.frames[t][i] != 0
      then FrameOf(m.frames[t][i]) else NULL
    case Root(e) => if e in m.pgdir then m.pgdir[e] else NULL
    case Lost(p) => if p in m.lost then p else NULL
  }

  function Slots(m: Mem): set<Slot> {
    (set t: nat, i: nat | t < |m.frames| && i < NPTENTRIES :: Entry(t, i))
    + (set e | e in m.pgdir :: Root(e)) + (set p | p in m.lost :: Lost(p))
  }

  /** Everything that points at page p: what pp_ref is meant to count. */
  function Holders(m: Mem, p: nat): set<Slot>
    requires Sized(m)
  {
    set s | s in Slots(m) && Target(m, s) == p
  }

  lemma InHolders(m: Mem, s: Slot, p: nat)
    requires Sized(m)
    ensures s in Holders(m, p) <==> Target(m, s) == p
  {}

  /** The typing of the forest: valid entries lead one level down, and every table
      has exactly one parent, or is lost. */
  ghost predicate Shape(m: Mem) {
    && Sized(m)
    && (forall e :: e in m.pgdir ==> m.pgdir[e] < |m.frames| && m.level[m.pgdir[e]] == 0)
    && (forall p :: p in m.lost ==> p < |m.frames| && m.level[p] == 1)
    && (forall t, i :: 0 <= t < |m.frames| && 0 <= i < NPTENTRIES ==> EntryOk(m, t, i))
    && (forall t :: 0 <= t < |m.frames| && m.level[t] < DATA ==> |Holders(m, t)| == 1)
  }

  ghost predicate EntryOk(m: Mem, t: nat, i: nat)
    requires Sized(m) && t < |m.frames| && i < NPTENTRIES
  {
    var p := Target(m, Entry(t, i));
    p != NULL ==>
      && IsValid(m.frames[t][i])
      && p < |m.frames|
      && m.level[p] == m.level[t] + 1
      && m.frames[t][i] == PteWord(p, m.frames[t][i] % 1024)
  }

  /* ---- counting ---- */

  /** The places that name page p, lost references apart. */
  function RealHolders(m: Mem, p: nat): set<Slot>
    requires Sized(m)
  {
    set s | s in Holders(m, p) && !s.Lost?
  }

  lemma RealHoldersSize(m: Mem, p: nat)
    requires Sized(m)
    ensures |Holders(m, p)| == |RealHolders(m, p)| + (if p in m.lost then 1 else 0)
  {
    InHolders(m, Lost(p), p);
    forall s ensures s in Holders(m, p) <==> s in RealHolders(m, p) + (if p in m.lost then {Lost(p)} else {}) {
      InHolders(m, s, p);
    }
    assert Holders(m, p) == RealHolders(m, p) + (if p in m.lost then {Lost(p)} else {});
  }

  /** Under the invariant a count is the number of places that name the page, and one more for a
      lost table; no table has two parents, and no free page has one. */
  lemma CountsCover(m: Mem, pages: seq<PageInfo>, head: int, free: map<nat, nat>, n: nat, p: nat)
    requires Inv(m, pages, head, free, n, NULL) && p < |pages|
    ensures pages[p].ref == |RealHolders(m, p)| + (if p in m.lost then 1 else 0)
    ensures m.level[p] < DATA ==> |RealHolders(m, p)| <= 1
    ensures p in free ==> |RealHolders(m, p)| == 0
  {
    RealHoldersSize(m, p);
    if p in free { assert ListedIf(pages, free, n, p); }
  }

  /** pp_ref is exact: it counts the holders, plus one for a page in hand. */
  ghost predicate Exact(m: Mem, pages: seq<PageInfo>, pending: int)
    requires Sized(m) && |pages| == |m.frames|
  {
    forall p :: 0 <= p < |pages| ==> pages[p].ref == |Holders(m, p)| + (if p == pending then 1 else 0)
  }

  /** The free list.  `free` maps each listed page to its distance from the end of the
      list and n is the length: links step from distance d to d - 1, so the chain from
      `head` is acyclic, has no duplicates and visits exactly the keys of `free`. */
  ghost predicate FreeList(pages: seq<PageInfo>, head: int, free: map<nat, nat>, n: nat) {
    && (n == 0 ==> head == NULL)
    && (n > 0 ==> head >= 0 && head in free && free[head] == n - 1)
    && (forall p: nat :: ListedIf(pages, free, n, p))
    && (forall p, q :: p in free && q in free && free[p] == free[q] ==> p == q)
    && (forall p: nat :: UnlistedIf(pages, free, p))
  }

  /** Only listed pages have a link. */
  predicate UnlistedIf(pages: seq<PageInfo>, free: map<nat, nat>, p: nat) {
    p < |pages| && p !in free ==> pages[p].link == NULL
  }

  predicate ListedIf(pages: seq<PageInfo>, free: map<nat, nat>, n: nat, p: nat) {
    p in free ==> Listed(pages, free, n, p)
  }

  predicate Listed(pages: seq<PageInfo>, free: map<nat, nat>, n: nat, p: nat)
    requires p in free
  {
    && p < |pages| && free[p] < n && pages[p].ref == 0
    && (free[p] == 0 ==> pages[p].link == NULL)
    && (free[p] > 0 ==> pages[p].link >= 0 && pages[p].link in free && free[pages[p].link] == free[p] - 1)
  }

  ghost predicate Inv(m: Mem, pages: seq<PageInfo>, head: int, free: map<nat, nat>, n: nat, pending: int) {
    Shape(m) && |pages| == |m.frames| && FreeList(pages, head, free, n) && Exact(m, pages, pending)
  }

  /** No table, mapped page or page directory is on the free list. */
  lemma FreeIsUnheld(m: Mem, pages: seq<PageInfo>, head: int, free: map<nat, nat>, n: nat, pending: int, p: nat,
                     s: Slot)
    requires Inv(m, pages, head, free, n, pending)
    requires p in free
    ensures p < |pages| && Target(m, s) != p && m.level[p] == DATA && p != pending && Holders(m, p) == {}
  {
    assert ListedIf(pages, free, n, p);
    assert |Holders(m, p)| == 0;
    InHolders(m, s, p);
  }

  lemma SameHolder(m: Mem, t: nat, a: Slot, b: Slot)
    requires Shape(m) && t < |m.frames| && m.level[t] < DATA
    requires Target(m, a) == t && Target(m, b) == t
    ensures a == b
  {
    InHolders(m, a, t);
    InHolders(m, b, t);
    assert |Holders(m, t) - {a}| == 0;
    assert b !in Holders(m, t) - {a};
  }

  /* ---- one entry changes ---- */

  function SetEntry(m: Mem, t: nat, i: nat, w: nat): Mem
    requires Sized(m) && t < |m.frames| && i < NPTENTRIES
  {
    var row: seq<nat> := m.frames[t];
    m.(frames := m.frames[t := row[i := w]])
  }

  lemma TargetAfterSet(m: Mem, t: nat, i: nat, w: nat, s: Slot)
    requires Sized(m) && t < |m.frames| && i < NPTENTRIES
    ensures Sized(SetEntry(m, t, i, w))
    ensures s != Entry(t, i) ==> Target(SetEntry(m, t, i, w), s) == Target(m, s)
    ensures Target(SetEntry(m, t, i, 0), Entry(t, i)) == NULL
  {}

  lemma {:induction false} HolderSetAfterSet(m: Mem, t: nat, i: nat, w: nat, p: nat)
    requires Sized(m) && t < |m.frames| && i < NPTENTRIES
    ensures Sized(SetEntry(m, t, i, w))
    ensures var m' := SetEntry(m, t, i, w); var s := Entry(t, i);
            Holders(m', p) == Holders(m, p) - {s} + (if Target(m', s) == p then {s} else {})
  {
    var m' := SetEntry(m, t, i, w);
    var s := Entry(t, i);
    TargetAfterSet(m, t, i, w, s);
    forall x ensures x in Holders(m', p) <==> x in Holders(m, p) - {s} + (if Target(m', s) == p then {s} else {}) {
      InHolders(m, x, p);
      InHolders(m', x, p);
      TargetAfterSet(m, t, i, w, x);
    }
  }

  lemma MoveElement<T>(a: set<T>, s: T, add: bool)
    ensures |a - {s} + (if add then {s} else {})| == |a| - (if s in a then 1 else 0) + (if add then 1 else 0)
  {
    assert s in a ==> |a - {s}| == |a| - 1;
    assert s !in a ==> a - {s} == a;
    assert !add ==> a - {s} + {} == a - {s};
  }

  /** Changing one entry moves at most one holder, from the old page to the new. */
  lemma HoldersAfterSet(m: Mem, t: nat, i: nat, w: nat, p: nat)
    requires Sized(m) && t < |m.frames| && i < NPTENTRIES
    ensures Sized(SetEntry(m, t, i, w))
    ensures var m' := SetEntry(m, t, i, w); var s := Entry(t, i);
            |Holders(m', p)| ==
              |Holders(m, p)| - (if Target(m, s) == p then 1 else 0) + (if Target(m', s) == p then 1 else 0)
  {
    HolderSetAfterSet(m, t, i, w, p);
    var s := Entry(t, i);
    InHolders(m, s, p);
    MoveElement(Holders(m, p), s, Target(SetEntry(m, t, i, w), s) == p);
  }

  /** A leaf entry may be cleared, or pointed at any data page, in any table. */
  lemma SetLeafShape(m: Mem, t: nat, i: nat, w: nat)
    requires Shape(m) && t < |m.frames| && i < NPTENTRIES && m.level[t] == 3
    requires w != 0 ==>
      FrameOf(w) < |m.frames| && m.level[FrameOf(w)] == DATA && IsValid(w) && w == PteWord(FrameOf(w), w % 1024)
    ensures Shape(SetEntry(m, t, i, w))
  {
    var m' := SetEntry(m, t, i, w);
    forall u, j | 0 <= u < |m'.frames| && 0 <= j < NPTENTRIES ensures EntryOk(m', u, j) {
      TargetAfterSet(m, t, i, w, Entry(u, j));
      assert EntryOk(m, u, j);
    }
    forall u | 0 <= u < |m'.frames| && m'.level[u] < DATA ensures |Holders(m', u)| == 1 {
      assert EntryOk(m, t, i);
      HoldersAfterSet(m, t, i, w, u);
    }
  }

  /* ---- a table is linked into, or taken out of, the forest ---- */

  /** A page as memset leaves it. */
  function ZeroPage(): (row: seq<nat>)
    ensures |row| == NPTENTRIES && Clear(row)
  {
    seq(NPTENTRIES, _ => 0)
  }

  predicate Clear(row: seq<nat>) { forall i :: 0 <= i < |row| ==> row[i] == 0 }

  /** A zeroed page p becomes the child of slot (t, i). */
  function LinkTable(m: Mem, t: nat, i: nat, p: nat): Mem
    requires Sized(m) && t < |m.frames| && i < NPTENTRIES && p < |m.frames| && m.level[t] < 3
  {
    SetEntry(m, t, i, PteWord(p, 0)).(level := m.level[p := m.level[t] + 1])
  }

  lemma LinkTargets(m: Mem, t: nat, i: nat, p: nat, s: Slot)
    requires Shape(m) && t < |m.frames| && i < NPTENTRIES && p < |m.frames|
    requires m.level[t] < 3 && m.level[p] == DATA && Clear(m.frames[p])
    requires (m.level[t] == 0 ==> Owned(i)) && m.frames[t][i] == 0
    ensures Sized(LinkTable(m, t, i, p))
    ensures Target(LinkTable(m, t, i, p), s) == if s == Entry(t, i) then p else Target(m, s)
  {
    PteRoundTrip(p, 0);
  }

  lemma LinkHolders(m: Mem, t: nat, i: nat, p: nat, q: nat)
    requires Shape(m) && t < |m.frames| && i < NPTENTRIES && p < |m.frames|
    requires m.level[t] < 3 && m.level[p] == DATA && Clear(m.frames[p])
    requires (m.level[t] == 0 ==> Owned(i)) && m.frames[t][i] == 0
    ensures Sized(LinkTable(m, t, i, p))
    ensures |Holders(LinkTable(m, t, i, p), q)| == |Holders(m, q)| + (if q == p then 1 else 0)
  {
    var m' := LinkTable(m, t, i, p);
    LinkTargets(m, t, i, p, Entry(t, i));
    var s := Entry(t, i);
    InHolders(m, s, q);
    forall x ensures x in Holders(m', q) <==> x in Holders(m, q) + (if q == p then {s} else {}) {
      LinkTargets(m, t, i, p, x);
      InHolders(m, x, q);
      InHolders(m', x, q);
    }
    assert Holders(m', q) == Holders(m, q) + (if q == p then {s} else {});
  }

  lemma LinkEntryOk(m: Mem, t: nat, i: nat, p: nat, u: nat, j: nat)
    requires Shape(m) && t < |m.frames| && i < NPTENTRIES && p < |m.frames| && u < |m.frames| && j < NPTENTRIES
    requires m.level[t] < 3 && m.level[p] == DATA && Clear(m.frames[p])
    requires (m.level[t] == 0 ==> Owned(i)) && m.frames[t][i] == 0
    requires Holders(m, p) == {}
    ensures Sized(LinkTable(m, t, i, p)) && EntryOk(LinkTable(m, t, i, p), u, j)
  {
    PteRoundTrip(p, 0);
    LinkTargets(m, t, i, p, Entry(u, j));
    assert EntryOk(m, u, j);
    InHolders(m, Entry(u, j), p);
  }

  lemma LinkShape(m: Mem, t: nat, i: nat, p: nat)
    requires Shape(m) && t < |m.frames| && i < NPTENTRIES && p < |m.frames|
    requires m.level[t] < 3 && m.level[p] == DATA && Clear(m.frames[p])
    requires (m.level[t] == 0 ==> Owned(i)) && m.frames[t][i] == 0
    requires Holders(m, p) == {}
    ensures Shape(LinkTable(m, t, i, p))
  {
    var m' := LinkTable(m, t, i, p);
    LinkTargets(m, t, i, p, Entry(t, i));
    forall u, j | 0 <= u < |m'.frames| && 0 <= j < NPTENTRIES ensures EntryOk(m', u, j) {
      LinkEntryOk(m, t, i, p, u, j);
    }
    forall e | e in m'.pgdir ensures m'.pgdir[e] < |m'.frames| && m'.level[m'.pgdir[e]] == 0 {
      InHolders(m, Root(e), p);
    }
    forall q | q in m'.lost ensures q < |m'.frames| && m'.level[q] == 1 { InHolders(m, Lost(q), p); }
    forall u | 0 <= u < |m'.frames| && m'.level[u] < DATA ensures |Holders(m', u)| == 1 {
      LinkHolders(m, t, i, p, u);
    }
  }

  /** The empty table p leaves slot (t, i) and stops being a table. */
  function UnlinkTable(m: Mem, t: nat, i: nat, p: nat): Mem
    requires Sized(m) && t < |m.frames| && i < NPTENTRIES && p < |m.frames|
  {
    SetEntry(m, t, i, 0).(level := m.level[p := DATA])
  }

  ghost predicate EmptyTable(m: Mem, p: nat)
    requires Sized(m) && p < |m.frames|
  {
    forall j :: 0 <= j < NPTENTRIES ==> Target(m, Entry(p, j)) == NULL
  }

  lemma UnlinkTargets(m: Mem, t: nat, i: nat, p: nat, s: Slot)
    requires Shape(m) && t < |m.frames| && i < NPTENTRIES && p < |m.frames|
    requires Target(m, Entry(t, i)) == p && EmptyTable(m, p)
    ensures Sized(UnlinkTable(m, t, i, p))
    ensures Target(UnlinkTable(m, t, i, p), s) == if s == Entry(t, i) then NULL else Target(m, s)
  {
    assert EntryOk(m, t, i);
  }

  lemma UnlinkHolders(m: Mem, t: nat, i: nat, p: nat, q: nat)
    requires Shape(m) && t < |m.frames| && i < NPTENTRIES && p < |m.frames|
    requires Target(m, Entry(t, i)) == p && EmptyTable(m, p)
    ensures Sized(UnlinkTable(m, t, i, p))
    ensures |Holders(UnlinkTable(m, t, i, p), q)| == |Holders(m, q)| - (if q == p then 1 else 0)
  {
    var m' := UnlinkTable(m, t, i, p);
    var s := Entry(t, i);
    UnlinkTargets(m, t, i, p, s);
    InHolders(m, s, q);
    forall x ensures x in Holders(m', q) <==> x in Holders(m, q) - {s} {
      UnlinkTargets(m, t, i, p, x);
      InHolders(m, x, q);
      InHolders(m', x, q);
    }
    assert Holders(m', q) == Holders(m, q) - {s};
  }

  lemma UnlinkShape(m: Mem, t: nat, i: nat, p: nat)
    requires Shape(m) && t < |m.frames| && i < NPTENTRIES && p < |m.frames| && m.level[t] < 3
    requires Target(m, Entry(t, i)) == p && EmptyTable(m, p)
    ensures Shape(UnlinkTable(m, t, i, p))
  {
    var m' := UnlinkTable(m, t, i, p);
    assert EntryOk(m, t, i);
    forall u, j | 0 <= u < |m'.frames| && 0 <= j < NPTENTRIES ensures EntryOk(m', u, j) {
      UnlinkTargets(m, t, i, p, Entry(u, j));
      assert EntryOk(m, u, j);
      if Target(m, Entry(u, j)) == p { SameHolder(m, p, Entry(u, j), Entry(t, i)); }
    }
    forall q | q in m'.lost ensures q < |m'.frames| && m'.level[q] == 1 {
      if q == p { SameHolder(m, p, Lost(q), Entry(t, i)); }
    }
    forall u | 0 <= u < |m'.frames| && m'.level[u] < DATA ensures |Holders(m', u)| == 1 {
      UnlinkHolders(m, t, i, p, u);
    }
  }
}
