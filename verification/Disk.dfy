/** The file system as values: which record slot holds which block, and what each file's bytes are. */
module Disk {
  import opened Blocks
  import Bitmap

  const NDIRECT: nat := 10
  const MAXBLOCKS: nat := 1034          // NDIRECT + NINDIRECT
  const MAXDISK: nat := 0xC_0000        // DISKSIZE / BLKSIZE

  /** A File record's size and block pointers; zero means no block. */
  datatype File = File(size: nat, direct: seq<nat>, indirect: nat)

  datatype State = State(free: set<nat>, blocks: seq<Block>, files: seq<File>)

  /** A place that can name a disk block: the slot of file block i, or the indirect pointer. */
  datatype Holder = Data(f: nat, i: nat) | Ind(f: nat)

  /** Blocks needed for a file of the given size. */
  function Count(size: nat): nat { (size + BLKSIZE - 1) / BLKSIZE }

  predicate Shape(s: State) {
    |s.blocks| <= MAXDISK && forall f :: 0 <= f < |s.files| ==> |s.files[f].direct| == NDIRECT
  }

  predicate Valid(s: State, h: Holder) { h.f < |s.files| && (h.Data? ==> h.i < MAXBLOCKS) }

  /** The block number a place holds. */
  function Held(s: State, h: Holder): nat
    requires Shape(s) && Valid(s, h)
  {
    var r := s.files[h.f];
    match h
    case Ind(_) => r.indirect
    case Data(_, i) =>
      if i < NDIRECT then r.direct[i]
      else if 0 < r.indirect < |s.blocks| then Load(s.blocks[r.indirect], i - NDIRECT) else 0
  }

  predicate InUse(s: State, h: Holder)
    requires Shape(s)
  {
    Valid(s, h) && Held(s, h) != 0 ==> Bitmap.Reserved(|s.blocks|) <= Held(s, h) < |s.blocks| && Held(s, h) !in s.free
  }

  predicate Distinct(s: State, h: Holder, k: Holder)
    requires Shape(s)
  {
    Valid(s, h) && Valid(s, k) && h != k && Held(s, h) != 0 ==> Held(s, h) != Held(s, k)
  }

  predicate FreeOk(s: State) { forall b :: b in s.free ==> Bitmap.Reserved(|s.blocks|) <= b < |s.blocks| }

  /** No block has two holders; every held or reserved block is marked in use. */
  ghost predicate Own(s: State) {
    && Shape(s) && FreeOk(s)
    && (forall h: Holder :: InUse(s, h))
    && (forall h: Holder, k: Holder :: Distinct(s, h, k))
  }

  /** Slots past the end of each file are empty. */
  ghost predicate Tail(s: State)
    requires Shape(s)
  {
    forall f, i :: 0 <= f < |s.files| && Count(s.files[f].size) <= i < MAXBLOCKS ==> Held(s, Data(f, i)) == 0
  }

  /** Every place but h holds what it held; h holds w. */
  ghost predicate OnlyChanged(s: State, s': State, h: Holder, w: nat)
    requires Shape(s)
  {
    && Shape(s') && |s'.blocks| == |s.blocks| && |s'.files| == |s.files|
    && forall k: Holder :: Valid(s, k) ==> Held(s', k) == if k == h then w else Held(s, k)
  }

  /** A data block in place stays in place, with its bytes. */
  predicate Kept(s: State, s': State, k: Holder)
    requires Shape(s) && Shape(s') && |s'.blocks| == |s.blocks| && |s'.files| == |s.files|
  {
    Valid(s, k) && k.Data? && 0 < Held(s, k) < |s.blocks| ==>
      Held(s', k) == Held(s, k) && s'.blocks[Held(s, k)] == s.blocks[Held(s, k)]
  }

  lemma ClaimKeeps(s: State, s': State, h: Holder, b: nat)
    requires Own(s) && Valid(s, h) && Held(s, h) == 0 && b in s.free
    requires OnlyChanged(s, s', h, b) && s'.free == s.free - {b}
    ensures Own(s')
  {
    forall k: Holder ensures InUse(s', k) { assert InUse(s, k); }
    forall k: Holder, l: Holder ensures Distinct(s', k, l) { assert Distinct(s, k, l) && InUse(s, k) && InUse(s, l); }
  }

  lemma ReleaseKeeps(s: State, s': State, h: Holder)
    requires Own(s) && Valid(s, h) && Held(s, h) != 0
    requires OnlyChanged(s, s', h, 0) && s'.free == s.free + {Held(s, h)}
    ensures Own(s')
  {
    assert InUse(s, h);
    forall k: Holder ensures InUse(s', k) { assert InUse(s, k) && Distinct(s, h, k); }
    forall k: Holder, l: Holder ensures Distinct(s', k, l) { assert Distinct(s, k, l); }
  }

  /* ---- the slot file_block_walk finds ---- */

  /** The slot of a direct block, or of one whose indirect block is there. */
  predicate Reachable(s: State, h: Holder) {
    h.Data? && Valid(s, h) && (h.i >= NDIRECT ==> 0 < s.files[h.f].indirect < |s.blocks|)
  }

  /** Stores a block number through the slot. */
  function PutSlot(s: State, h: Holder, w: nat): State
    requires Shape(s) && Reachable(s, h) && w < 0x1_0000_0000
  {
    var r := s.files[h.f];
    if h.i < NDIRECT then s.(files := s.files[h.f := r.(direct := r.direct[h.i := w])])
    else s.(blocks := s.blocks[r.indirect := Store(s.blocks[r.indirect], h.i - NDIRECT, w)])
  }

  lemma PutHeld(s: State, h: Holder, w: nat, k: Holder)
    requires Own(s) && Reachable(s, h) && w < 0x1_0000_0000 && Valid(s, k)
    ensures Shape(PutSlot(s, h, w)) && Held(PutSlot(s, h, w), k) == if k == h then w else Held(s, k)
  {
    var r := s.files[h.f];
    if h.i >= NDIRECT && k.Data? && k.i >= NDIRECT {
      assert Distinct(s, Ind(h.f), Ind(k.f));
      LoadStore(s.blocks[r.indirect], h.i - NDIRECT, w, k.i - NDIRECT);
    }
  }

  lemma PutKept(s: State, h: Holder, w: nat, k: Holder)
    requires Own(s) && Reachable(s, h) && w < 0x1_0000_0000 && k != h
    ensures Shape(PutSlot(s, h, w)) && Kept(s, PutSlot(s, h, w), k)
  {
    if Valid(s, k) && k.Data? {
      PutHeld(s, h, w, k);
      assert Distinct(s, k, Ind(h.f));
    }
  }

  lemma PutChanges(s: State, h: Holder, w: nat)
    requires Own(s) && Reachable(s, h) && w < 0x1_0000_0000
    ensures OnlyChanged(s, PutSlot(s, h, w), h, w) && forall k: Holder :: k != h ==> Kept(s, PutSlot(s, h, w), k)
  {
    forall k: Holder | Valid(s, k)
      ensures Shape(PutSlot(s, h, w)) && Held(PutSlot(s, h, w), k) == if k == h then w else Held(s, k)
    {
      PutHeld(s, h, w, k);
    }
    forall k: Holder | k != h ensures Kept(s, PutSlot(s, h, w), k) { PutKept(s, h, w, k); }
  }

  /* ---- the indirect block ---- */

  /** A cleared block becomes the indirect block of f. */
  function NewInd(s: State, f: nat, b: nat): State
    requires f < |s.files| && b < |s.blocks|
  {
    s.(files := s.files[f := s.files[f].(indirect := b)], blocks := s.blocks[b := Zero()])
  }

  lemma NewIndHeld(s: State, f: nat, b: nat, k: Holder)
    requires Own(s) && f < |s.files| && s.files[f].indirect == 0 && b in s.free
    ensures b < |s.blocks| && Shape(NewInd(s, f, b))
    ensures Valid(s, k) ==> Held(NewInd(s, f, b), k) == if k == Ind(f) then b else Held(s, k)
    ensures Kept(s, NewInd(s, f, b), k)
  {
    if Valid(s, k) {
      assert InUse(s, k) && InUse(s, Ind(k.f));
      if k.Data? && k.i >= NDIRECT && k.f == f { LoadZero(k.i - NDIRECT); }
    }
  }

  lemma NewIndChanges(s: State, f: nat, b: nat)
    requires Own(s) && f < |s.files| && s.files[f].indirect == 0 && b in s.free
    ensures b < |s.blocks| && OnlyChanged(s, NewInd(s, f, b), Ind(f), b)
    ensures forall k: Holder :: Kept(s, NewInd(s, f, b), k)
  {
    forall k: Holder
      ensures b < |s.blocks| && Shape(NewInd(s, f, b)) && Kept(s, NewInd(s, f, b), k)
      ensures Valid(s, k) ==> Held(NewInd(s, f, b), k) == if k == Ind(f) then b else Held(s, k)
    {
      NewIndHeld(s, f, b, k);
    }
  }

  /** The indirect block of f is given up, once no slot in it is used. */
  function DropInd(s: State, f: nat): State
    requires f < |s.files|
  {
    s.(files := s.files[f := s.files[f].(indirect := 0)])
  }

  /** Data written into a block. */
  function Poked(s: State, b: nat, at: nat, data: seq<Byte>): State
    requires b < |s.blocks| && at + |data| <= BLKSIZE
  {
    s.(blocks := s.blocks[b := Patch(s.blocks[b], at, data)])
  }
}
