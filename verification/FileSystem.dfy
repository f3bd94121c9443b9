/** The file server's block layer: walks, fetches, truncation and byte-level reads and writes. */
module FileSystem {
  import opened Blocks
  import opened Disk
  import Bitmap

  datatype Ret = Ok | Inval | NotFound | NoDisk

  /** What a failed allocation leaves in the slot: -E_NO_DISK as an unsigned word. */
  const ERRWORD: nat := 0x1_0000_0000 - 9

  /** Blocks a fetch of file block i has to allocate. */
  function Need(s: State, f: nat, i: nat): nat
    requires Shape(s) && f < |s.files| && i < MAXBLOCKS
  {
    (if i >= NDIRECT && s.files[f].indirect == 0 then 1 else 0) + (if Held(s, Data(f, i)) == 0 then 1 else 0)
  }

  /** A fetch of file block i changed at most that slot and the indirect pointer of f. */
  ghost predicate Fetched(s: State, s': State, f: nat, i: nat)
    requires Shape(s) && f < |s.files| && i < MAXBLOCKS
  {
    && Own(s') && |s'.blocks| == |s.blocks| && |s'.files| == |s.files|
    && Held(s', Data(f, i)) != 0
    && (forall k: Holder :: Kept(s, s', k))
    && (forall k: Holder :: Valid(s, k) && k != Data(f, i) && k != Ind(f) ==> Held(s', k) == Held(s, k))
    && (s'.files[f].indirect == 0 <==> s.files[f].indirect == 0 && i < NDIRECT)
    && (forall g :: 0 <= g < |s.files| ==> s'.files[g].size == s.files[g].size)
    && s'.free <= s.free && |s.free| == |s'.free| + Need(s, f, i)
  }

  /** At most what h holds changed, and n blocks were taken for it. */
  ghost predicate Stage(s: State, s': State, h: Holder, n: nat)
    requires Shape(s)
  {
    && Own(s') && |s'.blocks| == |s.blocks| && |s'.files| == |s.files|
    && (forall k: Holder :: Kept(s, s', k) && (Valid(s, k) && k != h ==> Held(s', k) == Held(s, k)))
    && (forall g :: 0 <= g < |s.files| ==> s'.files[g].size == s.files[g].size)
    && s'.free <= s.free && |s.free| == |s'.free| + n
  }

  lemma StageSame(s: State, h: Holder)
    requires Own(s)
    ensures Stage(s, s, h, 0)
  {}

  lemma WalkedStage(s: State, s': State, f: nat)
    requires Own(s) && f < |s.files| && s.files[f].indirect == 0
    requires f < |s'.files| && s'.files[f].indirect in s.free && s'.files[f].indirect < |s.blocks|
    requires s' == NewInd(s, f, s'.files[f].indirect).(free := s.free - {s'.files[f].indirect})
    ensures Stage(s, s', Ind(f), 1)
  {
    var b := s'.files[f].indirect;
    var t := NewInd(s, f, b);
    NewIndChanges(s, f, b);
    forall k: Holder ensures Kept(s, s', k) && (Valid(s, k) && k != Ind(f) ==> Held(s', k) == Held(s, k)) {
      assert Kept(s, t, k);
      if Valid(s, k) { assert Held(s', k) == Held(t, k); }
    }
    ClaimKeeps(s, s', Ind(f), b);
  }

  /** Filling an empty slot with a free block. */
  lemma FilledStage(s: State, s': State, h: Holder, b: nat)
    requires Own(s) && Reachable(s, h) && Held(s, h) == 0 && b in s.free && b < 0x1_0000_0000
    requires s' == PutSlot(s, h, b).(free := s.free - {b})
    ensures Stage(s, s', h, 1) && Held(s', h) == b
  {
    var t := PutSlot(s, h, b);
    PutChanges(s, h, b);
    forall k: Holder ensures Kept(s, s', k) && (Valid(s, k) && k != h ==> Held(s', k) == Held(s, k)) {
      assert k != h ==> Kept(s, t, k);
      if Valid(s, k) { assert Held(s', k) == Held(t, k); }
    }
    assert Held(s', h) == Held(t, h);
    ClaimKeeps(s, s', h, b);
  }

  lemma FetchDone(s: State, t: State, u: State, f: nat, i: nat, n1: nat, n2: nat)
    requires Shape(s) && f < |s.files| && i < MAXBLOCKS && Shape(t) && Stage(s, t, Ind(f), n1)
    requires Stage(t, u, Data(f, i), n2)
    requires n1 == (if i >= NDIRECT && s.files[f].indirect == 0 then 1 else 0)
    requires n2 == (if Held(s, Data(f, i)) == 0 then 1 else 0)
    requires t.files[f].indirect == 0 <==> s.files[f].indirect == 0 && i < NDIRECT
    requires Held(u, Data(f, i)) != 0
    ensures Fetched(s, u, f, i)
  {
    forall k: Holder
      ensures Kept(s, u, k) && (Valid(s, k) && k != Data(f, i) && k != Ind(f) ==> Held(u, k) == Held(s, k))
    {
      assert Kept(s, t, k) && Kept(t, u, k);
    }
    assert Held(u, Ind(f)) == Held(t, Ind(f));
  }

  /** A slot holding the error word breaks ownership. */
  lemma ErrorBreaksOwn(s: State, h: Holder)
    requires Own(s) && Reachable(s, h)
    ensures !Own(PutSlot(s, h, ERRWORD))
  {
    PutHeld(s, h, ERRWORD, h);
    assert !InUse(PutSlot(s, h, ERRWORD), h);
  }

  /* ---- giving blocks back ---- */

  /** The blocks in slots lo to hi of file f. */
  function InSlots(s: State, f: nat, lo: nat, hi: nat): set<nat>
    requires Shape(s) && f < |s.files|
  {
    set i | lo <= i < hi && i < MAXBLOCKS && Held(s, Data(f, i)) != 0 :: Held(s, Data(f, i))
  }

  predicate InRange(k: Holder, f: nat, lo: nat, hi: nat) { k.Data? && k.f == f && lo <= k.i < hi }

  /** Slots lo to hi of file f were emptied, their blocks freed, and nothing else changed. */
  ghost predicate Released(s: State, s': State, f: nat, lo: nat, hi: nat)
    requires Shape(s) && f < |s.files|
  {
    && Own(s') && |s'.blocks| == |s.blocks| && |s'.files| == |s.files|
    && (forall k: Holder :: Valid(s, k) ==> Held(s', k) == if InRange(k, f, lo, hi) then 0 else Held(s, k))
    && (forall k: Holder :: !InRange(k, f, lo, hi) ==> Kept(s, s', k))
    && (forall g :: 0 <= g < |s.files| ==> s'.files[g].size == s.files[g].size)
    && s'.free == s.free + InSlots(s, f, lo, hi)
  }

  lemma ReleasedNone(s: State, f: nat, lo: nat, hi: nat)
    requires Own(s) && f < |s.files|
    requires forall i :: lo <= i < hi && i < MAXBLOCKS ==> Held(s, Data(f, i)) == 0
    ensures Released(s, s, f, lo, hi)
  {}

  lemma ReleasedOne(s: State, s': State, f: nat, i: nat)
    requires Own(s) && Reachable(s, Data(f, i)) && Held(s, Data(f, i)) != 0
    requires s' == PutSlot(s, Data(f, i), 0).(free := s.free + {Held(s, Data(f, i))})
    ensures Released(s, s', f, i, i + 1)
  {
    var h := Data(f, i);
    var t := PutSlot(s, h, 0);
    PutChanges(s, h, 0);
    forall k: Holder
      ensures (Valid(s, k) ==> Held(s', k) == if k == h then 0 else Held(s, k)) && (k != h ==> Kept(s, s', k))
    {
      assert k != h ==> Kept(s, t, k);
      if Valid(s, k) { assert Held(s', k) == Held(t, k); }
    }
    ReleaseKeeps(s, s', h);
    assert InSlots(s, f, i, i + 1) == {Held(s, h)};
  }

  lemma InSlotsStep(s: State, f: nat, lo: nat, i: nat)
    requires Shape(s) && f < |s.files| && lo <= i
    ensures InSlots(s, f, lo, i + 1) == InSlots(s, f, lo, i) + InSlots(s, f, i, i + 1)
  {}

  lemma KeptOn(s: State, t: State, u: State, k: Holder)
    requires Shape(s) && Shape(t) && Shape(u) && |t.blocks| == |s.blocks| == |u.blocks|
    requires |t.files| == |s.files| == |u.files| && Kept(s, t, k) && Kept(t, u, k)
    ensures Kept(s, u, k)
  {}

  lemma ReleasedMore(s: State, t: State, u: State, f: nat, lo: nat, i: nat)
    requires Shape(s) && f < |s.files| && lo <= i && Released(s, t, f, lo, i) && Released(t, u, f, i, i + 1)
    ensures Released(s, u, f, lo, i + 1)
  {
    forall k: Holder | !InRange(k, f, lo, i + 1) ensures Kept(s, u, k) { KeptOn(s, t, u, k); }
    InSlotsStep(s, f, lo, i);
    assert InSlots(t, f, i, i + 1) == InSlots(s, f, i, i + 1) by {
      assert i < MAXBLOCKS ==> Held(t, Data(f, i)) == Held(s, Data(f, i));
    }
  }

  /** The indirect block goes with the last block past the direct ones. */
  predicate DropsInd(s: State, f: nat, size: nat)
    requires f < |s.files|
  {
    size < s.files[f].size && Count(size) <= NDIRECT && s.files[f].indirect != 0
  }

  /** The slots a resize empties: those between the two sizes, and all of the indirect block if
      that goes. */
  predicate Emptied(s: State, f: nat, size: nat, k: Holder)
    requires f < |s.files|
  {
    k.Data? && k.f == f && (Count(size) <= k.i < Count(s.files[f].size) || (DropsInd(s, f, size) && k.i >= NDIRECT))
  }

  /** What file_truncate_blocks does to the blocks: exactly those slots are emptied, what the ones
      between the two sizes held is freed, and the indirect block when it goes. */
  ghost predicate Cut(s: State, s': State, f: nat, size: nat)
    requires Shape(s) && f < |s.files|
  {
    && Own(s') && |s'.blocks| == |s.blocks| && |s'.files| == |s.files|
    && (forall k: Holder :: Valid(s, k) ==>
          Held(s', k) == if Emptied(s, f, size, k) || (k == Ind(f) && DropsInd(s, f, size)) then 0 else Held(s, k))
    && (forall k: Holder :: !Emptied(s, f, size, k) ==> Kept(s, s', k))
    && s'.free == s.free + InSlots(s, f, Count(size), Count(s.files[f].size))
                + (if DropsInd(s, f, size) then {s.files[f].indirect} else {})
  }

  ghost predicate SameSizes(s: State, s': State) {
    |s'.files| == |s.files| && forall g :: 0 <= g < |s.files| ==> s'.files[g].size == s.files[g].size
  }

  /** What file_set_size does. */
  ghost predicate Resized(s: State, s': State, f: nat, size: nat)
    requires Shape(s) && f < |s.files|
  {
    && Cut(s, s', f, size)
    && forall g :: 0 <= g < |s.files| ==> s'.files[g].size == if g == f then size else s.files[g].size
  }

  /** With the slots past every end empty, a resize frees exactly what the file held past its new
      size, and leaves the slots past every end empty. */
  lemma ResizedTail(s: State, s': State, f: nat, size: nat)
    requires Shape(s) && f < |s.files| && Resized(s, s', f, size) && Tail(s)
    ensures Tail(s')
    ensures s'.free == s.free + InSlots(s, f, Count(size), MAXBLOCKS)
                     + (if DropsInd(s, f, size) then {s.files[f].indirect} else {})
  {
    forall g, i | 0 <= g < |s'.files| && Count(s'.files[g].size) <= i < MAXBLOCKS ensures Held(s', Data(g, i)) == 0 {
      assert Held(s', Data(g, i)) == if Emptied(s, f, size, Data(g, i)) then 0 else Held(s, Data(g, i));
    }
    assert InSlots(s, f, Count(size), Count(s.files[f].size)) == InSlots(s, f, Count(size), MAXBLOCKS);
  }

  /** Every block that was held is still held, or free. */
  ghost predicate Accounted(s: State, s': State)
    requires Shape(s) && Shape(s')
  {
    forall k: Holder :: Valid(s, k) && Held(s, k) != 0 ==> Held(s, k) in s'.free || StillHeld(s', Held(s, k))
  }

  ghost predicate StillHeld(s: State, b: nat)
    requires Shape(s)
  {
    exists k: Holder :: Valid(s, k) && Held(s, k) == b
  }

  /** No slot of the indirect block past the end of the file is in use. */
  ghost predicate Unused(s: State, f: nat)
    requires Shape(s) && f < |s.files|
  {
    forall i :: NDIRECT <= i < MAXBLOCKS && Count(s.files[f].size) <= i ==> Held(s, Data(f, i)) == 0
  }

  /** A resize loses no block if and only if it keeps the indirect block or no slot in it past the
      old end of the file is in use. */
  lemma ResizeLosesNothingIff(s: State, s': State, f: nat, size: nat)
    requires Own(s) && f < |s.files| && Resized(s, s', f, size)
    ensures Accounted(s, s') <==> !DropsInd(s, f, size) || Unused(s, f)
  {
    if i :| DropsInd(s, f, size) && NDIRECT <= i < MAXBLOCKS && Count(s.files[f].size) <= i
            && Held(s, Data(f, i)) != 0
    {
      LostSlot(s, s', f, size, i);
    } else {
      forall k: Holder | Valid(s, k) && Held(s, k) != 0 ensures Held(s, k) in s'.free || StillHeld(s', Held(s, k)) {
        if !Emptied(s, f, size, k) && k != Ind(f) { assert Held(s', k) == Held(s, k); }
        if k == Ind(f) && !DropsInd(s, f, size) { assert Held(s', k) == Held(s, k); }
        if Emptied(s, f, size, k) {
          assert Held(s, Data(f, k.i)) in InSlots(s, f, Count(size), Count(s.files[f].size));
        }
      }
    }
  }

  lemma LostSlot(s: State, s': State, f: nat, size: nat, i: nat)
    requires Own(s) && f < |s.files| && Resized(s, s', f, size) && DropsInd(s, f, size)
    requires NDIRECT <= i < MAXBLOCKS && Count(s.files[f].size) <= i && Held(s, Data(f, i)) != 0
    ensures !Accounted(s, s')
  {
    var h := Data(f, i);
    var b := Held(s, h);
    assert InUse(s, h) && Distinct(s, h, Ind(f));
    forall j | Count(size) <= j < Count(s.files[f].size) && j < MAXBLOCKS ensures Held(s, Data(f, j)) != b {
      assert Distinct(s, h, Data(f, j));
    }
    forall k: Holder | Valid(s', k) ensures Held(s', k) != b { assert Distinct(s, h, k); }
    assert !StillHeld(s', b) && b !in s'.free;
  }

  lemma CutNone(s: State, f: nat, size: nat)
    requires Own(s) && f < |s.files| && s.files[f].size <= size
    ensures Cut(s, s, f, size)
  {
    assert Count(s.files[f].size) <= Count(size);
    assert InSlots(s, f, Count(size), Count(s.files[f].size)) == {};
  }

  /** A slot of the indirect block of f. */
  predicate Indirect(k: Holder, f: nat) { k.Data? && k.f == f && k.i >= NDIRECT }

  /** The indirect block of f has gone, with whatever its slots named. */
  ghost predicate IndGone(s: State, s': State, f: nat)
    requires Shape(s) && f < |s.files|
  {
    && Own(s') && |s'.blocks| == |s.blocks| && SameSizes(s, s') && s'.free == s.free + {s.files[f].indirect}
    && (forall k: Holder :: Valid(s, k) ==> Held(s', k) == if k == Ind(f) || Indirect(k, f) then 0 else Held(s, k))
    && (forall k: Holder :: !Indirect(k, f) ==> Kept(s, s', k))
  }

  lemma DroppedInd(s: State, s': State, f: nat)
    requires Own(s) && f < |s.files| && s.files[f].indirect != 0
    requires s' == DropInd(s, f).(free := s.free + {s.files[f].indirect})
    ensures IndGone(s, s', f)
  {
    assert InUse(s, Ind(f));
    forall k: Holder | Valid(s, k) ensures Held(s', k) == if k == Ind(f) || Indirect(k, f) then 0 else Held(s, k) {}
    forall k: Holder ensures InUse(s', k) { assert InUse(s, k) && Distinct(s, Ind(f), k); }
    forall k: Holder, l: Holder ensures Distinct(s', k, l) { assert Distinct(s, k, l); }
  }

  lemma CutDone(s: State, t: State, u: State, f: nat, size: nat)
    requires Shape(s) && f < |s.files| && size < s.files[f].size
    requires Released(s, t, f, Count(size), Count(s.files[f].size))
    requires if DropsInd(s, f, size) then IndGone(t, u, f) else u == t
    ensures Cut(s, u, f, size) && SameSizes(s, u)
  {
    assert Held(t, Ind(f)) == Held(s, Ind(f));
    if DropsInd(s, f, size) {
      forall k: Holder | !Emptied(s, f, size, k) ensures Kept(s, u, k) { assert Kept(s, t, k) && Kept(t, u, k); }
    }
  }

  lemma ResizeDone(s: State, t: State, u: State, f: nat, size: nat)
    requires Shape(s) && f < |s.files| && Cut(s, t, f, size) && SameSizes(s, t)
    requires Own(u) && u == t.(files := t.files[f := t.files[f].(size := size)])
    requires forall k: Holder :: Kept(t, u, k) && (Valid(t, k) ==> Held(u, k) == Held(t, k))
    ensures Resized(s, u, f, size)
  {
    forall k: Holder | !Emptied(s, f, size, k) ensures Kept(s, u, k) { assert Kept(s, t, k) && Kept(t, u, k); }
  }

  /** Only the recorded size of f changed. */
  lemma SizeOnly(s: State, s': State, f: nat, size: nat)
    requires Own(s) && f < |s.files| && s' == s.(files := s.files[f := s.files[f].(size := size)])
    ensures Own(s') && forall k: Holder :: Kept(s, s', k) && (Valid(s, k) ==> Held(s', k) == Held(s, k))
  {
    forall k: Holder ensures InUse(s', k) { assert InUse(s, k); }
    forall k: Holder, l: Holder ensures Distinct(s', k, l) { assert Distinct(s, k, l); }
  }

  class Server {
    const bitmap: array<Bitmap.Word>
    var blocks: seq<Block>
    var files: seq<File>

    constructor (bitmap: array<Bitmap.Word>, blocks: seq<Block>, files: seq<File>)
      ensures this.bitmap == bitmap && this.blocks == blocks && this.files == files
    {
      this.bitmap, this.blocks, this.files := bitmap, blocks, files;
    }

    ghost function S(): State reads this, bitmap { State(Bitmap.FreeSet(bitmap[..], |blocks|), blocks, files) }

    ghost predicate Ready() reads this, bitmap { |blocks| <= 32 * bitmap.Length && Own(S()) }

    /** alloc_block, on the server's bitmap. */
    method Alloc() returns (r: int)
      requires |blocks| <= 32 * bitmap.Length
      modifies bitmap
      ensures r >= 0 ==> r in old(S()).free && S() == old(S()).(free := old(S()).free - {r})
      ensures r < 0 <==> old(S()).free == {}
      ensures r < 0 ==> S() == old(S()) && r == -Bitmap.E_NO_DISK
    {
      r := Bitmap.AllocBlock(bitmap, |blocks|);
    }

    /** file_block_walk: finds the slot of block i of file f, giving f an indirect block when asked to. */
    method BlockWalk(f: nat, i: nat, alloc: bool) returns (r: Ret)
      requires Ready() && f < |files|
      modifies this, bitmap
      ensures |blocks| == |old(blocks)| && |files| == |old(files)|
      ensures r == Inval <==> i >= MAXBLOCKS
      ensures r == NotFound <==> NDIRECT <= i < MAXBLOCKS && old(files)[f].indirect == 0 && !alloc
      ensures r == NoDisk <==> NDIRECT <= i < MAXBLOCKS && old(files)[f].indirect == 0 && alloc && old(S()).free == {}
      ensures r == Ok ==> Own(S()) && Reachable(S(), Data(f, i))
      ensures r == Inval || r == NotFound ==> S() == old(S())
      ensures r == Ok ==> if NDIRECT <= i && old(files)[f].indirect == 0
        then files[f].indirect in old(S()).free
             && S() == NewInd(old(S()), f, files[f].indirect).(free := old(S()).free - {files[f].indirect})
        else S() == old(S())
      ensures r == NoDisk ==> !Own(S())
    {
      if i < NDIRECT { return Ok; }
      if i - NDIRECT < NINDIRECT {
        if files[f].indirect == 0 {
          if !alloc { return NotFound; }
          ghost var s := S();
          var ret := Alloc();
          if ret < 0 {
            files := files[f := files[f].(indirect := ERRWORD)];
            assert Shape(S()) ==> !InUse(S(), Ind(f));
            return NoDisk;
          }
          var b: nat := ret;
          NewIndChanges(s, f, b);
          files := files[f := files[f].(indirect := b)];
          blocks := blocks[b := Zero()];
          ClaimKeeps(s, S(), Ind(f), b);
        }
        assert InUse(S(), Ind(f));
        return Ok;
      }
      return Inval;
    }

    method StoreSlot(f: nat, i: nat, w: nat)
      requires Shape(S()) && Reachable(S(), Data(f, i)) && w < 0x1_0000_0000
      modifies this
      ensures S() == PutSlot(old(S()), Data(f, i), w) && |blocks| == |old(blocks)|
    {
      var r := files[f];
      if i < NDIRECT {
        files := files[f := r.(direct := r.direct[i := w])];
      } else {
        blocks := blocks[r.indirect := Store(blocks[r.indirect], i - NDIRECT, w)];
      }
    }

    method LoadSlot(f: nat, i: nat) returns (w: nat)
      requires Shape(S()) && Reachable(S(), Data(f, i))
      ensures w == Held(S(), Data(f, i))
    {
      if i < NDIRECT { return files[f].direct[i]; }
      w := Load(blocks[files[f].indirect], i - NDIRECT);
    }

    /** file_get_block. Ownership survives exactly when the disk has the blocks the fetch needs. */
    method GetBlock(f: nat, i: nat) returns (r: Ret, b: nat)
      requires Ready() && f < |files|
      modifies this, bitmap
      ensures |blocks| == |old(blocks)| && |files| == |old(files)| && r != NotFound
      ensures r == Inval <==> i > |blocks| || i >= MAXBLOCKS
      ensures r == Inval ==> S() == old(S())
      ensures r == Ok ==> Fetched(old(S()), S(), f, i) && b == Held(S(), Data(f, i))
      ensures r == NoDisk <==> i <= |blocks| && i < MAXBLOCKS && |old(S()).free| < Need(old(S()), f, i)
      ensures Own(S()) <==> r != NoDisk
    {
      b := 0;
      if i > |blocks| { return Inval, 0; }
      ghost var s := S();
      r := BlockWalk(f, i, true);
      if r != Ok { return; }
      ghost var t := S();
      ghost var n1: nat := 0;
      if NDIRECT <= i && s.files[f].indirect == 0 { WalkedStage(s, t, f); n1 := 1; } else { StageSame(s, Ind(f)); }
      assert Held(t, Data(f, i)) == Held(s, Data(f, i));
      r, b := FillSlot(f, i);
      if r == Ok { FetchDone(s, t, S(), f, i, n1, if Held(s, Data(f, i)) == 0 then 1 else 0); }
    }

    /** Gives an empty slot a block. */
    method FillSlot(f: nat, i: nat) returns (r: Ret, b: nat)
      requires Ready() && Reachable(S(), Data(f, i))
      modifies this, bitmap
      ensures |blocks| == |old(blocks)| && |files| == |old(files)| && (r == Ok || r == NoDisk)
      ensures r == NoDisk <==> Held(old(S()), Data(f, i)) == 0 && old(S()).free == {}
      ensures r == NoDisk ==> !Own(S())
      ensures r == Ok ==> Stage(old(S()), S(), Data(f, i), if Held(old(S()), Data(f, i)) == 0 then 1 else 0)
      ensures r == Ok ==> b == Held(S(), Data(f, i)) != 0
    {
      ghost var t := S();
      b := LoadSlot(f, i);
      if b != 0 {
        StageSame(t, Data(f, i));
        return Ok, b;
      }
      var ret := Alloc();
      if ret < 0 {
        ErrorBreaksOwn(t, Data(f, i));
        StoreSlot(f, i, ERRWORD);
        return NoDisk, 0;
      }
      b := ret;
      StoreSlot(f, i, b);
      FilledStage(t, S(), Data(f, i), b);
      return Ok, b;
    }

    /** file_free_block. */
    method FreeFileBlock(f: nat, i: nat) returns (r: Ret)
      requires Ready() && f < |files|
      modifies this, bitmap
      ensures |blocks| == |old(blocks)| && Released(old(S()), S(), f, i, i + 1)
      ensures r == Inval <==> i >= MAXBLOCKS
      ensures r == NotFound <==> NDIRECT <= i < MAXBLOCKS && old(files)[f].indirect == 0
      ensures r != NoDisk
    {
      ghost var s := S();
      r := BlockWalk(f, i, false);
      if r != Ok {
        ReleasedNone(s, f, i, i + 1);
        return;
      }
      var b := LoadSlot(f, i);
      if b == 0 {
        ReleasedNone(s, f, i, i + 1);
        return;
      }
      assert InUse(s, Data(f, i));
      Bitmap.FreeBlock(bitmap, b, |blocks|);
      StoreSlot(f, i, 0);
      ReleasedOne(s, S(), f, i);
    }

    /** The loop of file_truncate_blocks. */
    method FreeFileBlocks(f: nat, lo: nat, hi: nat)
      requires Ready() && f < |files|
      modifies this, bitmap
      ensures |blocks| == |old(blocks)| && Released(old(S()), S(), f, lo, hi)
    {
      ghost var s := S();
      ReleasedNone(s, f, lo, lo);
      if hi <= lo {
        ReleasedNone(s, f, lo, hi);
        return;
      }
      var i := lo;
      while i < hi
        invariant lo <= i <= hi && |blocks| == |s.blocks| && Released(s, S(), f, lo, i)
      {
        ghost var t := S();
        var r := FreeFileBlock(f, i);
        ReleasedMore(s, t, S(), f, lo, i);
        i := i + 1;
      }
    }

    /** file_truncate_blocks, for a smaller size. */
    method TruncateBlocks(f: nat, size: nat)
      requires Ready() && f < |files| && size < files[f].size
      modifies this, bitmap
      ensures Cut(old(S()), S(), f, size) && SameSizes(old(S()), S()) && |blocks| == |old(blocks)|
    {
      ghost var s := S();
      var lo, hi := Count(size), Count(files[f].size);
      FreeFileBlocks(f, lo, hi);
      ghost var t := S();
      assert Held(t, Ind(f)) == Held(s, Ind(f));
      if lo <= NDIRECT && files[f].indirect != 0 {
        assert InUse(t, Ind(f));
        Bitmap.FreeBlock(bitmap, files[f].indirect, |blocks|);
        files := files[f := files[f].(indirect := 0)];
        DroppedInd(t, S(), f);
      }
      CutDone(s, t, S(), f, size);
    }

    /** file_set_size. */
    method SetSize(f: nat, size: nat)
      requires Ready() && f < |files|
      modifies this, bitmap
      ensures Resized(old(S()), S(), f, size) && |blocks| == |old(blocks)|
    {
      ghost var s := S();
      if files[f].size > size { TruncateBlocks(f, size); } else { CutNone(s, f, size); }
      ghost var t := S();
      files := files[f := files[f].(size := size)];
      SizeOnly(t, S(), f, size);
      ResizeDone(s, t, S(), f, size);
    }

    /** memmove into a cached block. */
    method Poke(b: nat, at: nat, data: seq<Byte>)
      requires b < |blocks| && at + |data| <= BLKSIZE
      modifies this
      ensures S() == Poked(old(S()), b, at, data) && |blocks| == |old(blocks)| && |files| == |old(files)|
    {
      blocks := blocks[b := Patch(blocks[b], at, data)];
    }
  }
}
