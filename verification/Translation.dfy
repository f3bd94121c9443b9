/** What a four-level tree means: a flat map from (environment, address) to entry.
    Each change the page-table code makes to the forest is given its effect on it. */
module Translation {
  import opened Sv48
  import opened PhysMem

  function Step(m: Mem, t: int, i: nat): int
    requires Sized(m)
  {
    if t < 0 then NULL else Target(m, Entry(t, i))
  }

  /** The leaf table that environment e's walk for va reaches, or NULL. */
  function Leaf(m: Mem, e: nat, va: nat): int
    requires Sized(m)
  {
    if e !in m.pgdir then NULL
    else Step(m, Step(m, Step(m, m.pgdir[e], PD0X(va)), PD1X(va)), PD2X(va))
  }

  /** The flat map: the entry at va in environment e's address space; 0 is unmapped. */
  function Pte(m: Mem, e: nat, va: nat): nat
    requires Sized(m)
  {
    var t := Leaf(m, e, va);
    if 0 <= t < |m.frames| then m.frames[t][PTX(va)] else 0
  }

  lemma StepLevel(m: Mem, t: int, i: nat)
    requires Shape(m) && t < |m.frames| && i < NPTENTRIES && Step(m, t, i) != NULL
    ensures 0 <= t && 0 <= Step(m, t, i) < |m.frames| && m.level[Step(m, t, i)] == m.level[t] + 1 <= DATA
  {
    assert EntryOk(m, t, i);
  }

  /** The tables a successful walk passes through. */
  lemma WalkLevels(m: Mem, e: nat, va: nat) returns (t0: nat, t1: nat, t2: nat, t3: nat)
    requires Shape(m) && Leaf(m, e, va) != NULL
    ensures e in m.pgdir && t0 == m.pgdir[e] && t1 == Target(m, Entry(t0, PD0X(va)))
    ensures t2 == Target(m, Entry(t1, PD1X(va))) && t3 == Target(m, Entry(t2, PD2X(va))) == Leaf(m, e, va)
    ensures t0 < |m.frames| && t1 < |m.frames| && t2 < |m.frames| && t3 < |m.frames|
    ensures m.level[t0] == 0 && m.level[t1] == 1 && m.level[t2] == 2 && m.level[t3] == 3
  {
    var x1 := Step(m, m.pgdir[e], PD0X(va));
    StepLevel(m, m.pgdir[e], PD0X(va));
    var x2 := Step(m, x1, PD1X(va));
    StepLevel(m, x1, PD1X(va));
    StepLevel(m, x2, PD2X(va));
    t0, t1, t2, t3 := m.pgdir[e], x1, x2, Leaf(m, e, va);
  }

  /** Trees do not share leaf tables: one leaf table serves one environment and one
      2 MiB region of it. */
  lemma UniqueLeaf(m: Mem, e: nat, va: nat, e': nat, va': nat)
    requires Shape(m) && Leaf(m, e, va) != NULL && Leaf(m, e, va) == Leaf(m, e', va')
    ensures e == e' && PD0X(va) == PD0X(va') && PD1X(va) == PD1X(va') && PD2X(va) == PD2X(va')
  {
    var t0, t1, t2, t3 := WalkLevels(m, e, va);
    var u0, u1, u2, u3 := WalkLevels(m, e', va');
    SameHolder(m, t3, Entry(t2, PD2X(va)), Entry(u2, PD2X(va')));
    SameHolder(m, t2, Entry(t1, PD1X(va)), Entry(u1, PD1X(va')));
    SameHolder(m, t1, Entry(t0, PD0X(va)), Entry(u0, PD0X(va')));
    SameHolder(m, t0, Root(e), Root(e'));
  }

  /* ---- a leaf entry changes ---- */

  lemma LeafAfterSetLeaf(m: Mem, t: nat, i: nat, w: nat, e: nat, va: nat)
    requires Shape(m) && t < |m.frames| && i < NPTENTRIES && m.level[t] == 3
    ensures Sized(SetEntry(m, t, i, w))
    ensures Leaf(SetEntry(m, t, i, w), e, va) == Leaf(m, e, va)
  {
    var m' := SetEntry(m, t, i, w);
    if e in m.pgdir {
      var x0, i0 := m.pgdir[e], PD0X(va);
      TargetAfterSet(m, t, i, w, Entry(x0, i0));
      var x1 := Step(m, x0, i0);
      if x1 != NULL {
        StepLevel(m, x0, i0);
        TargetAfterSet(m, t, i, w, Entry(x1, PD1X(va)));
        var x2 := Step(m, x1, PD1X(va));
        if x2 != NULL {
          StepLevel(m, x1, PD1X(va));
          TargetAfterSet(m, t, i, w, Entry(x2, PD2X(va)));
        }
      }
    }
  }

  /** Writing one leaf entry changes the flat map at exactly one page of one
      environment, and nowhere else in any address space. */
  lemma PteAfterSetLeaf(m: Mem, e: nat, va: nat, w: nat, e': nat, va': nat)
    requires Shape(m) && Leaf(m, e, va) != NULL
    ensures 0 <= Leaf(m, e, va) < |m.frames|
    ensures var m' := SetEntry(m, Leaf(m, e, va), PTX(va), w);
            Sized(m') && Pte(m', e', va') == if e == e' && Vpn(va) == Vpn(va') then w else Pte(m, e', va')
  {
    var t0, t1, t2, t := WalkLevels(m, e, va);
    LeafAfterSetLeaf(m, t, PTX(va), w, e', va');
    SamePathIffSameVpn(va, va');
    var t' := Leaf(m, e', va');
    if t' == t {
      UniqueLeaf(m, e, va, e', va');
    } else if e == e' && Vpn(va) == Vpn(va') {
      assert false;
    }
    assert Leaf(SetEntry(m, t, PTX(va), w), e', va') == t';
  }

  /* ---- tables come and go ---- */

  lemma StepAfterLink(m: Mem, t: nat, i: nat, p: nat, x: int, j: nat)
    requires Shape(m) && t < |m.frames| && i < NPTENTRIES && p < |m.frames|
    requires m.level[t] < 3 && m.level[p] == DATA && Clear(m.frames[p])
    requires (m.level[t] == 0 ==> Owned(i)) && m.frames[t][i] == 0
    ensures Sized(LinkTable(m, t, i, p))
    ensures Step(LinkTable(m, t, i, p), x, j) == if x == t && j == i then p else Step(m, x, j)
    ensures Step(m, p, j) == NULL && Step(m, t, i) == NULL
  {
    if x >= 0 { LinkTargets(m, t, i, p, Entry(x, j)); } else { LinkTargets(m, t, i, p, Entry(0, j)); }
  }

  /** Linking a zeroed table changes no translation. */
  lemma PteAfterLink(m: Mem, t: nat, i: nat, p: nat, e: nat, va: nat)
    requires Shape(m) && t < |m.frames| && i < NPTENTRIES && p < |m.frames|
    requires m.level[t] < 3 && m.level[p] == DATA && Clear(m.frames[p])
    requires (m.level[t] == 0 ==> Owned(i)) && m.frames[t][i] == 0
    ensures Sized(LinkTable(m, t, i, p))
    ensures Pte(LinkTable(m, t, i, p), e, va) == Pte(m, e, va)
  {
    var m' := LinkTable(m, t, i, p);
    LinkTargets(m, t, i, p, Root(e));
    if e in m.pgdir {
      var x0, i0, i1, i2 := m.pgdir[e], PD0X(va), PD1X(va), PD2X(va);
      StepAfterLink(m, t, i, p, x0, i0);
      var x1, y1 := Step(m, x0, i0), Step(m', x0, i0);
      StepAfterLink(m, t, i, p, y1, i1);
      StepAfterLink(m, t, i, p, p, i1);
      StepAfterLink(m, t, i, p, p, i2);
      var x2, y2 := Step(m, x1, i1), Step(m', y1, i1);
      StepAfterLink(m, t, i, p, y2, i2);
      LeafIsTable(m, e, va);
    }
  }

  lemma LeafIsTable(m: Mem, e: nat, va: nat)
    requires Shape(m)
    ensures Leaf(m, e, va) != NULL ==> 0 <= Leaf(m, e, va) < |m.frames| && m.level[Leaf(m, e, va)] == 3
  {
    if Leaf(m, e, va) != NULL {
      var t0, t1, t2, t3 := WalkLevels(m, e, va);
    }
  }

  lemma StepAfterUnlink(m: Mem, t: nat, i: nat, p: nat, x: int, j: nat)
    requires Shape(m) && t < |m.frames| && i < NPTENTRIES && p < |m.frames| && m.level[t] < 3
    requires Target(m, Entry(t, i)) == p && EmptyTable(m, p)
    ensures Sized(UnlinkTable(m, t, i, p))
    ensures Step(UnlinkTable(m, t, i, p), x, j) == if x == t && j == i then NULL else Step(m, x, j)
    ensures Step(m, p, j) == NULL
  {
    if x >= 0 { UnlinkTargets(m, t, i, p, Entry(x, j)); } else { UnlinkTargets(m, t, i, p, Entry(0, j)); }
  }

  /** Unlinking a table whose entries are all clear changes no translation. */
  lemma PteAfterUnlink(m: Mem, t: nat, i: nat, p: nat, e: nat, va: nat)
    requires Shape(m) && t < |m.frames| && i < NPTENTRIES && p < |m.frames| && m.level[t] < 3
    requires Target(m, Entry(t, i)) == p && EmptyTable(m, p)
    ensures Sized(UnlinkTable(m, t, i, p))
    ensures Pte(UnlinkTable(m, t, i, p), e, va) == Pte(m, e, va)
  {
    var m' := UnlinkTable(m, t, i, p);
    UnlinkTargets(m, t, i, p, Root(e));
    if e in m.pgdir {
      var x0, i0, i1, i2 := m.pgdir[e], PD0X(va), PD1X(va), PD2X(va);
      StepAfterUnlink(m, t, i, p, x0, i0);
      var x1, y1 := Step(m, x0, i0), Step(m', x0, i0);
      StepAfterUnlink(m, t, i, p, x1, i1);
      StepAfterUnlink(m, t, i, p, p, i2);
      StepAfterUnlink(m, t, i, p, p, i1);
      var x2, y2 := Step(m, x1, i1), Step(m', y1, i1);
      StepAfterUnlink(m, t, i, p, x2, i2);
      LeafIsTable(m, e, va);
      if x2 == t && i2 == i {
        assert EntryOk(m, t, i);
        assert Leaf(m, e, va) == p && m.level[p] == 3;
        assert Target(m, Entry(p, PTX(va))) == NULL;
      } else if Leaf(m, e, va) != NULL {
        var t0, t1, t2, t3 := WalkLevels(m, e, va);
        UnlinkTargets(m, t, i, p, Entry(t3, PTX(va)));
      }
    }
  }

  /* ---- page directories ---- */

  /** env_setup_vm: page p, clear in every owned slot, becomes e's page directory. */
  function AddRoot(m: Mem, e: nat, p: nat): Mem
    requires Sized(m) && p < |m.frames|
  {
    m.(pgdir := m.pgdir[e := p], level := m.level[p := 0])
  }

  ghost predicate ClearDirectory(m: Mem, p: nat)
    requires Sized(m) && p < |m.frames|
  {
    forall i :: 0 <= i < NPTENTRIES && Owned(i) ==> m.frames[p][i] == 0
  }

  lemma AddRootTargets(m: Mem, e: nat, p: nat, s: Slot)
    requires Shape(m) && p < |m.frames| && m.level[p] == DATA && e !in m.pgdir && ClearDirectory(m, p)
    ensures Sized(AddRoot(m, e, p))
    ensures Target(AddRoot(m, e, p), s) == if s == Root(e) then p else Target(m, s)
  {}

  lemma AddRootKeeps(m: Mem, e: nat, p: nat)
    requires Shape(m) && p < |m.frames| && m.level[p] == DATA && e !in m.pgdir && ClearDirectory(m, p)
    requires Holders(m, p) == {}
    ensures var m' := AddRoot(m, e, p);
            && Shape(m')
            && forall q: nat {:trigger Holders(m', q)} ::
                 |Holders(m', q)| == |Holders(m, q)| + (if q == p then 1 else 0)
  {
    var m' := AddRoot(m, e, p);
    AddRootTargets(m, e, p, Root(e));
    forall q: nat ensures |Holders(m', q)| == |Holders(m, q)| + (if q == p then 1 else 0) {
      forall x ensures x in Holders(m', q) <==> x in Holders(m, q) + (if q == p then {Root(e)} else {}) {
        AddRootTargets(m, e, p, x);
        InHolders(m, x, q);
        InHolders(m', x, q);
      }
      assert Holders(m', q) == Holders(m, q) + (if q == p then {Root(e)} else {});
      InHolders(m, Root(e), q);
    }
    forall u, j | 0 <= u < |m'.frames| && 0 <= j < NPTENTRIES ensures EntryOk(m', u, j) {
      AddRootTargets(m, e, p, Entry(u, j));
      assert EntryOk(m, u, j);
      InHolders(m, Entry(u, j), p);
    }
  }

  lemma PteAfterAddRoot(m: Mem, e: nat, p: nat, e': nat, va: nat)
    requires Shape(m) && p < |m.frames| && m.level[p] == DATA && e !in m.pgdir && ClearDirectory(m, p)
    requires Holders(m, p) == {}
    ensures Sized(AddRoot(m, e, p))
    ensures Pte(AddRoot(m, e, p), e', va) == if e' == e then 0 else Pte(m, e', va)
  {
    AddRootTargets(m, e, p, Root(e'));
    var m' := AddRoot(m, e, p);
    if e' == e {
      AddRootTargets(m, e, p, Entry(p, PD0X(va)));
    } else if e' in m.pgdir {
      var x0, i0, i1, i2 := m.pgdir[e'], PD0X(va), PD1X(va), PD2X(va);
      AddRootTargets(m, e, p, Entry(x0, i0));
      var x1 := Step(m, x0, i0);
      if x1 != NULL {
        StepLevel(m, x0, i0);
        AddRootTargets(m, e, p, Entry(x1, i1));
        var x2 := Step(m, x1, i1);
        if x2 != NULL {
          StepLevel(m, x1, i1);
          AddRootTargets(m, e, p, Entry(x2, i2));
        }
      }
    }
  }

  /** The tables that e's page directory names. */
  function Orphans(m: Mem, e: nat): set<nat>
    requires Sized(m) && e in m.pgdir
  {
    set i: nat | i < NPTENTRIES && Target(m, Entry(m.pgdir[e], i)) >= 0 :: Target(m, Entry(m.pgdir[e], i)) as nat
  }

  /** env_free drops e's page directory; what it still names is lost. */
  function DropRoot(m: Mem, e: nat): Mem
    requires Sized(m) && e in m.pgdir && m.pgdir[e] < |m.frames|
  {
    m.(pgdir := m.pgdir - {e}, level := m.level[m.pgdir[e] := DATA], lost := m.lost + Orphans(m, e))
  }

  lemma DropRootTargets(m: Mem, e: nat, s: Slot)
    requires Shape(m) && e in m.pgdir && !s.Lost?
    ensures Sized(DropRoot(m, e))
    ensures Target(DropRoot(m, e), s) ==
            if s == Root(e) || (s.Entry? && s.t == m.pgdir[e]) then NULL else Target(m, s)
  {}

  lemma Orphaned(m: Mem, e: nat, q: nat)
    requires Shape(m) && e in m.pgdir
    ensures q in Orphans(m, e) ==> q < |m.frames| && m.level[q] == 1 && q !in m.lost
    ensures q in Orphans(m, e) <==> exists i: nat :: i < NPTENTRIES && Target(m, Entry(m.pgdir[e], i)) == q
  {
    if i: nat :| i < NPTENTRIES && Target(m, Entry(m.pgdir[e], i)) == q {
      assert EntryOk(m, m.pgdir[e], i);
      if q in m.lost { SameHolder(m, q, Lost(q), Entry(m.pgdir[e], i)); }
    }
  }

  /** Dropping a directory forgets its own holder; a table it named is held as lost instead. */
  lemma DropRootHolders(m: Mem, e: nat, q: nat)
    requires Shape(m) && e in m.pgdir
    ensures Sized(DropRoot(m, e))
    ensures Holders(DropRoot(m, e), q) ==
            if q in Orphans(m, e) then {Lost(q)} else Holders(m, q) - {Root(e)}
  {
    var m', r := DropRoot(m, e), m.pgdir[e];
    Orphaned(m, e, q);
    forall x ensures x in Holders(m', q) <==> x in if q in Orphans(m, e) then {Lost(q)} else Holders(m, q) - {Root(e)} {
      InHolders(m, x, q);
      InHolders(m', x, q);
      if !x.Lost? { DropRootTargets(m, e, x); }
      if q in Orphans(m, e) && !x.Lost? && Target(m, x) == q {
        var i: nat :| i < NPTENTRIES && Target(m, Entry(r, i)) == q;
        SameHolder(m, q, x, Entry(r, i));
      }
    }
  }

  lemma DropRootCounts(m: Mem, e: nat, q: nat)
    requires Shape(m) && e in m.pgdir
    ensures Sized(DropRoot(m, e))
    ensures |Holders(DropRoot(m, e), q)| == |Holders(m, q)| - (if q == m.pgdir[e] then 1 else 0)
  {
    DropRootHolders(m, e, q);
    Orphaned(m, e, q);
    InHolders(m, Root(e), q);
    if q in Orphans(m, e) { assert |Holders(m, q)| == 1; }
  }

  lemma DropRootShape(m: Mem, e: nat)
    requires Shape(m) && e in m.pgdir
    ensures Shape(DropRoot(m, e))
    ensures forall q: nat :: |Holders(DropRoot(m, e), q)| == |Holders(m, q)| - (if q == m.pgdir[e] then 1 else 0)
  {
    var m' := DropRoot(m, e);
    var p := m.pgdir[e];
    DropRootTargets(m, e, Root(e));
    forall q: nat ensures |Holders(m', q)| == |Holders(m, q)| - (if q == p then 1 else 0) { DropRootCounts(m, e, q); }
    forall e' | e' in m'.pgdir ensures m'.pgdir[e'] < |m'.frames| && m'.level[m'.pgdir[e']] == 0 {
      if m.pgdir[e'] == p { SameHolder(m, p, Root(e), Root(e')); }
    }
    forall q | q in m'.lost ensures q < |m'.frames| && m'.level[q] == 1 { Orphaned(m, e, q); }
    forall u, j | 0 <= u < |m'.frames| && 0 <= j < NPTENTRIES ensures EntryOk(m', u, j) {
      DropRootTargets(m, e, Entry(u, j));
      assert EntryOk(m, u, j);
    }
  }

  lemma PteAfterDropRoot(m: Mem, e: nat, e': nat, va: nat)
    requires Shape(m) && e in m.pgdir
    ensures Sized(DropRoot(m, e))
    ensures Pte(DropRoot(m, e), e', va) == if e' == e then 0 else Pte(m, e', va)
  {
    DropRootTargets(m, e, Root(e'));
    if e' != e && e' in m.pgdir {
      var x0, i0, i1, i2 := m.pgdir[e'], PD0X(va), PD1X(va), PD2X(va);
      if x0 == m.pgdir[e] { SameHolder(m, x0, Root(e), Root(e')); }
      DropRootTargets(m, e, Entry(x0, i0));
      var x1 := Step(m, x0, i0);
      if x1 != NULL {
        StepLevel(m, x0, i0);
        DropRootTargets(m, e, Entry(x1, i1));
        var x2 := Step(m, x1, i1);
        if x2 != NULL {
          StepLevel(m, x1, i1);
          DropRootTargets(m, e, Entry(x2, i2));
        }
      }
    }
  }
}
