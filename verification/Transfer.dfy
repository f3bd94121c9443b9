/** What a read or write of a byte range does to the disk, block by block. */
module Transfer {
  import opened Blocks
  import opened Disk
  import opened FileSystem
  import opened Options

  /** Byte k of file block i, where the block is there. */
  function Cell(s: State, f: nat, i: nat, k: nat): Option<Byte>
    requires Shape(s)
  {
    if f < |s.files| && i < MAXBLOCKS && k < BLKSIZE && 0 < Held(s, Data(f, i)) < |s.blocks|
    then Some(s.blocks[Held(s, Data(f, i))][k]) else None
  }

  /** Byte p of a file, where it is below the file's size and its block is there. */
  function At(s: State, f: nat, p: nat): Option<Byte>
    requires Shape(s)
  {
    if f < |s.files| && p < s.files[f].size then Cell(s, f, p / BLKSIZE, p % BLKSIZE) else None
  }

  function Left(size: nat, off: nat): nat { if off < size then size - off else 0 }

  function Min(a: nat, b: nat): nat { if a < b then a else b }

  /* ---- how many blocks a range of fetches takes ---- */

  function Empty(s: State, f: nat, lo: nat, hi: nat): nat
    requires Shape(s) && f < |s.files| && hi <= MAXBLOCKS
  {
    if hi <= lo then 0 else Empty(s, f, lo, hi - 1) + (if Held(s, Data(f, hi - 1)) == 0 then 1 else 0)
  }

  function NeedRange(s: State, f: nat, lo: nat, hi: nat): nat
    requires Shape(s) && f < |s.files| && hi <= MAXBLOCKS
  {
    Empty(s, f, lo, hi) + (if lo < hi && NDIRECT < hi && s.files[f].indirect == 0 then 1 else 0)
  }

  lemma {:induction false} NeedGrows(s: State, f: nat, lo: nat, mid: nat, hi: nat)
    requires Shape(s) && f < |s.files| && lo <= mid <= hi <= MAXBLOCKS
    ensures NeedRange(s, f, lo, mid) <= NeedRange(s, f, lo, hi)
    decreases hi
  {
    if mid < hi { NeedGrows(s, f, lo, mid, hi - 1); }
  }

  /** Slots lo to hi of file f now have blocks; every other place holds what it held. */
  ghost predicate Filled(s: State, s': State, f: nat, lo: nat, hi: nat)
    requires Shape(s) && f < |s.files| && hi <= MAXBLOCKS
  {
    && Own(s') && |s'.blocks| == |s.blocks| && |s'.files| == |s.files|
    && (forall k: Holder :: Valid(s, k) && k != Ind(f) && !InRange(k, f, lo, hi) ==> Held(s', k) == Held(s, k))
    && (forall k: Holder :: Valid(s, k) && InRange(k, f, lo, hi) ==> Held(s', k) != 0)
    && (s'.files[f].indirect == 0 <==> s.files[f].indirect == 0 && !(lo < hi && NDIRECT < hi))
    && (forall g :: 0 <= g < |s.files| ==> s'.files[g].size == s.files[g].size)
    && |s.free| == |s'.free| + NeedRange(s, f, lo, hi)
  }

  lemma NeedNext(s: State, t: State, f: nat, lo: nat, i: nat)
    requires Shape(s) && f < |s.files| && lo <= i < MAXBLOCKS && Filled(s, t, f, lo, i)
    ensures NeedRange(s, f, lo, i + 1) == NeedRange(s, f, lo, i) + Need(t, f, i)
  {
    assert Held(t, Data(f, i)) == Held(s, Data(f, i));
  }

  lemma FilledNone(s: State, f: nat, lo: nat)
    requires Own(s) && f < |s.files| && lo <= MAXBLOCKS
    ensures Filled(s, s, f, lo, lo)
  {}

  lemma FilledMore(s: State, t: State, u: State, f: nat, lo: nat, i: nat)
    requires Shape(s) && f < |s.files| && lo <= i < MAXBLOCKS && Filled(s, t, f, lo, i) && Fetched(t, u, f, i)
    ensures Filled(s, u, f, lo, i + 1)
  {
    NeedNext(s, t, f, lo, i);
    forall k: Holder | Valid(s, k) && InRange(k, f, lo, i + 1)
      ensures Held(u, k) != 0
    {
      assert Kept(t, u, k) && InUse(t, k);
    }
  }

  lemma FilledTail(s: State, s': State, f: nat, lo: nat, hi: nat)
    requires Shape(s) && f < |s.files| && hi <= MAXBLOCKS && Filled(s, s', f, lo, hi) && Tail(s)
    requires hi <= Count(s.files[f].size)
    ensures Tail(s')
  {
    forall g, i | 0 <= g < |s'.files| && Count(s'.files[g].size) <= i < MAXBLOCKS ensures Held(s', Data(g, i)) == 0 {
      assert Held(s', Data(g, i)) == Held(s, Data(g, i));
    }
  }

  /** Blocks a transfer can reach before file_get_block refuses the index. */
  function Limit(s: State): nat { Min(MAXBLOCKS, |s.blocks| + 1) }

  /** Blocks a transfer of count bytes at off has to allocate. */
  function TransferNeed(s: State, f: nat, off: nat, count: nat): nat
    requires Shape(s) && f < |s.files|
  {
    if count == 0 then 0 else NeedRange(s, f, off / BLKSIZE, Min(Count(off + count), Limit(s)))
  }

  /** Where a transfer stands: i is the next block, blocks lo to i are done. */
  ghost predicate Progress(s: State, s': State, f: nat, off: nat, pos: nat, end: nat, i: nat)
    requires Shape(s) && f < |s.files|
  {
    var lo := off / BLKSIZE;
    && off <= pos <= end && lo <= i && (i == lo || (i <= Count(end) && i <= Limit(s)))
    && (if i == lo then pos == off else pos == Min(end, i * BLKSIZE) && off < pos)
    && (if lo <= MAXBLOCKS then i <= MAXBLOCKS && Filled(s, s', f, lo, i) else i == lo && s' == s)
  }

  lemma ProgressStart(s: State, f: nat, off: nat, end: nat)
    requires Own(s) && f < |s.files| && off <= end
    ensures Progress(s, s, f, off, off, end, off / BLKSIZE)
  {
    if off / BLKSIZE <= MAXBLOCKS { FilledNone(s, f, off / BLKSIZE); }
  }

  lemma ProgressIndex(s: State, s': State, f: nat, off: nat, pos: nat, end: nat, i: nat)
    requires Shape(s) && f < |s.files| && Progress(s, s', f, off, pos, end, i) && pos < end
    ensures pos / BLKSIZE == i && i < Count(end)
  {}

  lemma ProgressStep(s: State, t: State, u: State, f: nat, off: nat, pos: nat, end: nat, i: nat)
    requires Shape(s) && f < |s.files| && Progress(s, t, f, off, pos, end, i) && pos < end && i < Limit(s) && Shape(t)
    requires Fetched(t, u, f, i)
    ensures Progress(s, u, f, off, pos + Min(BLKSIZE - pos % BLKSIZE, end - pos), end, i + 1)
  {
    ProgressIndex(s, t, f, off, pos, end, i);
    FilledMore(s, t, u, f, off / BLKSIZE, i);
  }

  lemma DoneFits(s: State, s': State, f: nat, off: nat, end: nat, i: nat)
    requires Shape(s) && f < |s.files| && Progress(s, s', f, off, end, end, i)
    ensures |s.free| == |s'.free| + TransferNeed(s, f, off, end - off) && (off < end ==> Count(end) <= Limit(s))
  {}

  lemma RefusedFits(s: State, s': State, f: nat, off: nat, pos: nat, end: nat, i: nat)
    requires Shape(s) && f < |s.files| && Progress(s, s', f, off, pos, end, i) && pos < end && i >= Limit(s)
    ensures TransferNeed(s, f, off, end - off) <= |s.free| && Count(end) > Limit(s)
  {
    ProgressIndex(s, s', f, off, pos, end, i);
    var lo := off / BLKSIZE;
    if lo <= Limit(s) { NeedGrows(s, f, lo, Limit(s), i); }
  }

  lemma FullNeeds(s: State, t: State, f: nat, off: nat, pos: nat, end: nat, i: nat)
    requires Shape(s) && f < |s.files| && Progress(s, t, f, off, pos, end, i) && pos < end && i < Limit(s)
    requires Shape(t) && |t.free| < Need(t, f, i)
    ensures |s.free| < TransferNeed(s, f, off, end - off)
  {
    ProgressIndex(s, t, f, off, pos, end, i);
    var lo := off / BLKSIZE;
    NeedNext(s, t, f, lo, i);
    NeedGrows(s, f, lo, i + 1, Min(Count(end), Limit(s)));
  }

  lemma CellKept(s: State, s': State, f: nat, i: nat, k: nat)
    requires Shape(s) && Shape(s') && |s'.blocks| == |s.blocks| && |s'.files| == |s.files|
    requires Kept(s, s', Data(f, i)) && Cell(s, f, i, k).Some?
    ensures Cell(s', f, i, k) == Cell(s, f, i, k)
  {}

  /** The bytes read so far are the file's bytes from off on. */
  ghost predicate ReadSo(s: State, f: nat, off: nat, data: seq<Byte>)
    requires Shape(s)
  {
    forall j :: 0 <= j < |data| ==> Cell(s, f, (off + j) / BLKSIZE, (off + j) % BLKSIZE) == Some(data[j])
  }

  lemma ReadKept(s: State, s': State, f: nat, off: nat, data: seq<Byte>)
    requires Shape(s) && Shape(s') && |s'.blocks| == |s.blocks| && |s'.files| == |s.files|
    requires ReadSo(s, f, off, data) && forall k: Holder :: Kept(s, s', k)
    ensures ReadSo(s', f, off, data)
  {
    forall j | 0 <= j < |data| ensures Cell(s', f, (off + j) / BLKSIZE, (off + j) % BLKSIZE) == Some(data[j]) {
      assert Kept(s, s', Data(f, (off + j) / BLKSIZE));
      assert Cell(s, f, (off + j) / BLKSIZE, (off + j) % BLKSIZE) == Some(data[j]);
      CellKept(s, s', f, (off + j) / BLKSIZE, (off + j) % BLKSIZE);
    }
  }

  lemma ReadMore(s: State, f: nat, off: nat, data: seq<Byte>, i: nat, n: nat)
    requires Shape(s) && f < |s.files| && i < MAXBLOCKS && 0 < Held(s, Data(f, i)) < |s.blocks|
    requires ReadSo(s, f, off, data)
    requires (off + |data|) / BLKSIZE == i && (off + |data|) % BLKSIZE + n <= BLKSIZE
    ensures var at := (off + |data|) % BLKSIZE; ReadSo(s, f, off, data + s.blocks[Held(s, Data(f, i))][at..at + n])
  {
    var at, blk := (off + |data|) % BLKSIZE, s.blocks[Held(s, Data(f, i))];
    var data' := data + blk[at..at + n];
    forall j | 0 <= j < |data'| ensures Cell(s, f, (off + j) / BLKSIZE, (off + j) % BLKSIZE) == Some(data'[j]) {
      if j >= |data| {
        assert off + j == i * BLKSIZE + (at + j - |data|);
        assert (off + j) / BLKSIZE == i && (off + j) % BLKSIZE == at + j - |data|;
      }
    }
  }

  lemma KeptTwice(s: State, t: State, u: State)
    requires Shape(s) && Shape(t) && Shape(u) && |t.blocks| == |s.blocks| == |u.blocks|
    requires |t.files| == |s.files| == |u.files|
    requires (forall k: Holder :: Kept(s, t, k)) && (forall k: Holder :: Kept(t, u, k))
    ensures forall k: Holder :: Kept(s, u, k)
  {
    forall k: Holder ensures Kept(s, u, k) { assert Kept(s, t, k) && Kept(t, u, k); }
  }

  lemma ProgressTail(s: State, s': State, f: nat, off: nat, pos: nat, end: nat, i: nat)
    requires Shape(s) && Shape(s') && f < |s.files| && Progress(s, s', f, off, pos, end, i)
    requires Tail(s) && (off < end ==> end <= s.files[f].size)
    ensures Tail(s')
  {
    var lo := off / BLKSIZE;
    if lo <= MAXBLOCKS {
      if i == lo {
        forall g, j | 0 <= g < |s'.files| && Count(s'.files[g].size) <= j < MAXBLOCKS
          ensures Held(s', Data(g, j)) == 0
        {
          assert Held(s', Data(g, j)) == Held(s, Data(g, j));
        }
      } else {
        FilledTail(s, s', f, lo, i);
      }
    }
  }

  /** What has been read from off is what the file now has there, and had there where it had anything. */
  lemma ReadAgrees(s: State, s': State, f: nat, off: nat, data: seq<Byte>)
    requires Shape(s) && Shape(s') && f < |s.files| && |s'.blocks| == |s.blocks| && |s'.files| == |s.files|
    requires (forall k: Holder :: Kept(s, s', k)) && s'.files[f].size == s.files[f].size
    requires ReadSo(s', f, off, data) && off + |data| <= s.files[f].size
    ensures forall j :: 0 <= j < |data| ==> At(s', f, off + j) == Some(data[j])
    ensures forall j :: 0 <= j < |data| && At(s, f, off + j).Some? ==> At(s, f, off + j) == Some(data[j])
  {
    forall j | 0 <= j < |data| && At(s, f, off + j).Some? ensures At(s, f, off + j) == Some(data[j]) {
      assert Kept(s, s', Data(f, (off + j) / BLKSIZE));
      CellKept(s, s', f, (off + j) / BLKSIZE, (off + j) % BLKSIZE);
    }
  }

  /** A read in progress: no data block moved, and what was read is what is there. */
  ghost predicate Reading(s: State, s': State, f: nat, off: nat, pos: nat, end: nat, i: nat, data: seq<Byte>)
    requires Shape(s) && f < |s.files|
  {
    && Own(s') && |s'.blocks| == |s.blocks| && |s'.files| == |s.files|
    && Progress(s, s', f, off, pos, end, i) && (forall k: Holder :: Kept(s, s', k))
    && |data| == pos - off && ReadSo(s', f, off, data)
  }

  lemma ReadAdvance(s: State, t: State, u: State, f: nat, off: nat, pos: nat, end: nat, i: nat, data: seq<Byte>, n: nat)
    requires Shape(s) && f < |s.files| && Reading(s, t, f, off, pos, end, i, data) && pos < end && i < Limit(s)
    requires Fetched(t, u, f, i) && n == Min(BLKSIZE - pos % BLKSIZE, end - pos)
    ensures 0 < Held(u, Data(f, i)) < |u.blocks|
    ensures Reading(s, u, f, off, pos + n, end, i + 1,
                    data + u.blocks[Held(u, Data(f, i))][pos % BLKSIZE..pos % BLKSIZE + n])
  {
    ProgressIndex(s, t, f, off, pos, end, i);
    ProgressStep(s, t, u, f, off, pos, end, i);
    KeptTwice(s, t, u);
    ReadKept(t, u, f, off, data);
    assert InUse(u, Data(f, i));
    ReadMore(u, f, off, data, i, n);
  }

  /* ---- writing ---- */

  /** A block that holds data holds no pointers, so writing into it moves nothing. */
  lemma PokedHeld(s: State, h: Holder, at: nat, data: seq<Byte>, k: Holder)
    requires Own(s) && Valid(s, h) && h.Data? && 0 < Held(s, h) < |s.blocks| && at + |data| <= BLKSIZE && Valid(s, k)
    ensures Held(Poked(s, Held(s, h), at, data), k) == Held(s, k)
  {
    assert Distinct(s, h, Ind(k.f));
  }

  lemma PokedOwn(s: State, h: Holder, at: nat, data: seq<Byte>)
    requires Own(s) && Valid(s, h) && h.Data? && 0 < Held(s, h) < |s.blocks| && at + |data| <= BLKSIZE
    ensures Own(Poked(s, Held(s, h), at, data))
    ensures forall k: Holder :: Valid(s, k) ==> Held(Poked(s, Held(s, h), at, data), k) == Held(s, k)
  {
    var u := Poked(s, Held(s, h), at, data);
    forall k: Holder | Valid(s, k) ensures Held(u, k) == Held(s, k) { PokedHeld(s, h, at, data, k); }
    forall k: Holder ensures InUse(u, k) { assert InUse(s, k); }
    forall k: Holder, l: Holder ensures Distinct(u, k, l) { assert Distinct(s, k, l); }
  }

  /** Exactly the written cells of that one file block change. */
  lemma PokedCell(s: State, f: nat, i: nat, at: nat, data: seq<Byte>, g: nat, j: nat, k: nat)
    requires Own(s) && Valid(s, Data(f, i)) && 0 < Held(s, Data(f, i)) < |s.blocks| && at + |data| <= BLKSIZE
    ensures var u := Poked(s, Held(s, Data(f, i)), at, data);
            Cell(u, g, j, k) ==
              if g == f && j == i && at <= k < at + |data| then Some(data[k - at]) else Cell(s, g, j, k)
  {
    if Valid(s, Data(g, j)) {
      PokedHeld(s, Data(f, i), at, data, Data(g, j));
      assert Distinct(s, Data(f, i), Data(g, j));
    }
  }

  /** Bytes off to pos of file f are buf's; any other byte that was there still is. */
  predicate WroteAt(s: State, s': State, f: nat, off: nat, buf: seq<Byte>, pos: nat, g: nat, j: nat, k: nat)
    requires Shape(s) && Shape(s') && off <= pos <= off + |buf|
  {
    j < MAXBLOCKS && k < BLKSIZE ==>
      if g == f && off <= j * BLKSIZE + k < pos then Cell(s', g, j, k) == Some(buf[j * BLKSIZE + k - off])
      else Cell(s, g, j, k).Some? ==> Cell(s', g, j, k) == Cell(s, g, j, k)
  }

  ghost predicate Wrote(s: State, s': State, f: nat, off: nat, buf: seq<Byte>, pos: nat)
    requires Shape(s) && Shape(s') && off <= pos <= off + |buf|
  {
    forall g: nat, j: nat, k: nat :: WroteAt(s, s', f, off, buf, pos, g, j, k)
  }

  lemma WroteStep(s: State, t: State, u: State, f: nat, off: nat, buf: seq<Byte>, pos: nat, n: nat, pos': nat)
    requires Shape(s) && Shape(t) && off <= pos && pos' == pos + n <= off + |buf| && pos % BLKSIZE + n <= BLKSIZE
    requires f < |t.files| && pos / BLKSIZE < MAXBLOCKS && Fetched(t, u, f, pos / BLKSIZE)
    requires Wrote(s, t, f, off, buf, pos) && Held(u, Data(f, pos / BLKSIZE)) < |u.blocks|
    ensures var b := Held(u, Data(f, pos / BLKSIZE));
            var v := Poked(u, b, pos % BLKSIZE, buf[pos - off..pos - off + n]);
            Shape(v) && Wrote(s, v, f, off, buf, pos')
  {
    var i, at, data := pos / BLKSIZE, pos % BLKSIZE, buf[pos - off..pos - off + n];
    var v := Poked(u, Held(u, Data(f, i)), at, data);
    forall g: nat, j: nat, k: nat ensures WroteAt(s, v, f, off, buf, pos', g, j, k) {
      assert WroteAt(s, t, f, off, buf, pos, g, j, k);
      PokedCell(u, f, i, at, data, g, j, k);
      if Cell(t, g, j, k).Some? {
        assert Kept(t, u, Data(g, j));
        CellKept(t, u, g, j, k);
      }
      assert pos == i * BLKSIZE + at;
      if j < MAXBLOCKS && k < BLKSIZE && pos <= j * BLKSIZE + k < pos + n { assert j == i; }
    }
  }

  lemma FilledPoked(s: State, t: State, f: nat, lo: nat, hi: nat, h: Holder, at: nat, data: seq<Byte>)
    requires Shape(s) && f < |s.files| && hi <= MAXBLOCKS && Filled(s, t, f, lo, hi)
    requires Valid(t, h) && h.Data? && 0 < Held(t, h) < |t.blocks| && at + |data| <= BLKSIZE
    ensures Filled(s, Poked(t, Held(t, h), at, data), f, lo, hi)
  {
    PokedOwn(t, h, at, data);
  }

  /** A write in progress. */
  ghost predicate Writing(s: State, s': State, f: nat, off: nat, buf: seq<Byte>, pos: nat, i: nat)
    requires Shape(s) && f < |s.files|
  {
    && Own(s') && |s'.blocks| == |s.blocks| && |s'.files| == |s.files|
    && Progress(s, s', f, off, pos, off + |buf|, i) && Wrote(s, s', f, off, buf, pos)
  }

  lemma WriteAdvance(s: State, t: State, u: State, v: State, f: nat, off: nat, buf: seq<Byte>, pos: nat, i: nat,
                     n: nat, pos': nat)
    requires Shape(s) && f < |s.files| && Writing(s, t, f, off, buf, pos, i) && pos < off + |buf| && i < Limit(s)
    requires pos' == pos + n
    requires Fetched(t, u, f, i) && n == Min(BLKSIZE - pos % BLKSIZE, off + |buf| - pos)
    requires 0 < Held(u, Data(f, i)) < |u.blocks|
    requires v == Poked(u, Held(u, Data(f, i)), pos % BLKSIZE, buf[pos - off..pos - off + n])
    ensures Writing(s, v, f, off, buf, pos', i + 1)
  {
    ProgressIndex(s, t, f, off, pos, off + |buf|, i);
    ProgressStep(s, t, u, f, off, pos, off + |buf|, i);
    WroteStep(s, t, u, f, off, buf, pos, n, pos');
    FilledPoked(s, u, f, off / BLKSIZE, i + 1, Data(f, i), pos % BLKSIZE, buf[pos - off..pos - off + n]);
  }

  lemma WritingStart(s: State, f: nat, off: nat, buf: seq<Byte>)
    requires Own(s) && f < |s.files|
    ensures Writing(s, s, f, off, buf, off, off / BLKSIZE)
  {
    ProgressStart(s, f, off, off + |buf|);
  }

  /** A transfer is refused for its block index. */
  predicate PastLimit(s: State, off: nat, count: nat) { count > 0 && Count(off + count) > Limit(s) }

  lemma TransferEnds(s: State, t: State, f: nat, off: nat, pos: nat, end: nat, i: nat, r: Ret)
    requires Shape(s) && f < |s.files| && Progress(s, t, f, off, pos, end, i)
    requires (r == Inval ==> pos < end && i >= Limit(s)) && (r == Ok ==> pos == end)
    ensures r == Ok || r == Inval ==> TransferNeed(s, f, off, end - off) <= |s.free|
    ensures r == Ok ==> |s.free| == |t.free| + TransferNeed(s, f, off, end - off) && !PastLimit(s, off, end - off)
    ensures r == Inval ==> PastLimit(s, off, end - off) && pos >= Limit(s) * BLKSIZE
  {
    if r == Ok { DoneFits(s, t, f, off, end, i); }
    if r == Inval { RefusedFits(s, t, f, off, pos, end, i); }
  }

  lemma ReadingStart(s: State, f: nat, off: nat, end: nat)
    requires Own(s) && f < |s.files| && off <= end
    ensures Reading(s, s, f, off, off, end, off / BLKSIZE, [])
  {
    ProgressStart(s, f, off, end);
  }

  lemma {:induction false} EmptySame(s: State, s': State, f: nat, lo: nat, hi: nat)
    requires Shape(s) && Shape(s') && f < |s.files| && |s'.files| == |s.files| && hi <= MAXBLOCKS
    requires forall k: Holder :: Valid(s, k) && k.f == f ==> Held(s', k) == Held(s, k)
    ensures Empty(s', f, lo, hi) == Empty(s, f, lo, hi)
    decreases hi
  {
    if lo < hi {
      EmptySame(s, s', f, lo, hi - 1);
      assert Held(s', Data(f, hi - 1)) == Held(s, Data(f, hi - 1));
    }
  }

  /** Growing a file moves no block, and leaves as many to allocate. */
  lemma GrownSame(s: State, s': State, f: nat, size: nat, off: nat, count: nat)
    requires Shape(s) && f < |s.files| && s.files[f].size <= size && Resized(s, s', f, size)
    ensures forall k: Holder :: Kept(s, s', k) && (Valid(s, k) ==> Held(s', k) == Held(s, k))
    ensures s'.free == s.free && TransferNeed(s', f, off, count) == TransferNeed(s, f, off, count)
  {
    assert Count(s.files[f].size) <= Count(size);
    assert InSlots(s, f, Count(size), Count(s.files[f].size)) == {};
    assert Held(s', Ind(f)) == Held(s, Ind(f));
    EmptySame(s, s', f, off / BLKSIZE, Min(Count(off + count), Limit(s)));
  }

  /** Byte p of file g after a write of buf at off to file f. */
  predicate ByteAfter(s: State, s': State, f: nat, off: nat, buf: seq<Byte>, pos: nat, g: nat, p: nat)
    requires Shape(s) && Shape(s') && off <= pos <= off + |buf|
  {
    && (g == f && off <= p < pos ==> At(s', g, p) == Some(buf[p - off]))
    && (!(g == f && off <= p < off + |buf|) && At(s, g, p).Some? ==> At(s', g, p) == At(s, g, p))
  }

  lemma BytesWritten(s: State, t: State, u: State, f: nat, off: nat, buf: seq<Byte>, pos: nat, i: nat, g: nat, p: nat)
    requires Shape(s) && Shape(t) && f < |s.files| && |t.blocks| == |s.blocks| && |t.files| == |s.files|
    requires (forall k: Holder :: Kept(s, t, k)) && Writing(t, u, f, off, buf, pos, i)
    requires forall h :: 0 <= h < |s.files| ==> s.files[h].size <= u.files[h].size
    requires pos <= u.files[f].size
    ensures ByteAfter(s, u, f, off, buf, pos, g, p)
  {
    var j, k := p / BLKSIZE, p % BLKSIZE;
    assert p == j * BLKSIZE + k;
    assert WroteAt(t, u, f, off, buf, pos, g, j, k);
    if At(s, g, p).Some? {
      assert Kept(s, t, Data(g, j));
      CellKept(s, t, g, j, k);
    }
  }

  function Max(a: nat, b: nat): nat { if a < b then b else a }

  /** The state a write leaves, whether or not it was cut short at the largest block index. */
  ghost predicate WriteKept(s: State, s': State, f: nat, off: nat, buf: seq<Byte>)
    requires Shape(s) && f < |s.files|
  {
    && Own(s') && |s'.blocks| == |s.blocks| && |s'.files| == |s.files| && (Tail(s) ==> Tail(s'))
    && (forall k: Holder :: Valid(s, k) && k.f != f ==> Held(s', k) == Held(s, k))
    && (forall g :: 0 <= g < |s.files| ==>
          s'.files[g].size == if g == f then Max(s.files[f].size, off + |buf|) else s.files[g].size)
    && (forall g: nat, p: nat :: !(g == f && off <= p < off + |buf|) && At(s, g, p).Some? ==>
          At(s', g, p) == At(s, g, p))
  }

  /** The bytes of buf below position top are in the file, from off on. */
  ghost predicate StoredBelow(s: State, f: nat, off: nat, buf: seq<Byte>, top: nat)
    requires Shape(s)
  {
    forall p: nat :: off <= p < off + |buf| && p < top ==> At(s, f, p) == Some(buf[p - off])
  }

  ghost predicate Stored(s: State, f: nat, off: nat, buf: seq<Byte>)
    requires Shape(s)
  {
    StoredBelow(s, f, off, buf, off + |buf|)
  }

  /** What file_write does, by result.  It fails for space exactly when it needs more blocks than are
      free, and leaves an error word as a block number; it is refused exactly when its last block is
      past the largest index, with the bytes before that stored; else all its bytes are stored.
      Unless it failed for space every other byte of every file is as it was. */
  ghost predicate WriteEffect(s: State, f: nat, off: nat, buf: seq<Byte>, r: Ret, s': State)
    requires Shape(s) && f < |s.files|
  {
    && r != NotFound
    && (r == NoDisk <==> |s.free| < TransferNeed(s, f, off, |buf|))
    && (r == Inval <==> r != NoDisk && PastLimit(s, off, |buf|))
    && (r == NoDisk ==> !Own(s'))
    && (r != NoDisk ==> WriteKept(s, s', f, off, buf) && StoredBelow(s', f, off, buf, Limit(s) * BLKSIZE))
    && (r == Ok ==> Stored(s', f, off, buf) && |s.free| == |s'.free| + TransferNeed(s, f, off, |buf|))
  }

  lemma TailKept(s: State, t: State, u: State, f: nat, off: nat, count: nat, pos: nat, i: nat)
    requires Shape(s) && Own(t) && Own(u) && f < |s.files| && |t.blocks| == |s.blocks| && |t.files| == |s.files|
    requires Tail(s)
    requires forall k: Holder :: Valid(s, k) ==> Held(t, k) == Held(s, k)
    requires forall g :: 0 <= g < |s.files| ==> s.files[g].size <= t.files[g].size
    requires Progress(t, u, f, off, pos, off + count, i) && off + count <= t.files[f].size
    ensures Tail(u)
  {
    forall g, j | 0 <= g < |t.files| && Count(t.files[g].size) <= j < MAXBLOCKS ensures Held(t, Data(g, j)) == 0 {
      assert Count(s.files[g].size) <= Count(t.files[g].size);
      assert Held(t, Data(g, j)) == Held(s, Data(g, j));
    }
    ProgressTail(t, u, f, off, pos, off + count, i);
  }

  /** The file was extended from s to t, and the loop took t to u. */
  lemma WriteDone(s: State, t: State, u: State, f: nat, off: nat, buf: seq<Byte>, pos: nat, i: nat)
    requires Own(t) && Shape(s) && f < |s.files| && |t.blocks| == |s.blocks| && |t.files| == |s.files|
    requires forall k: Holder :: Kept(s, t, k) && (Valid(s, k) ==> Held(t, k) == Held(s, k))
    requires Writing(t, u, f, off, buf, pos, i)
    requires forall g :: 0 <= g < |s.files| ==>
      t.files[g].size == if g == f then Max(s.files[f].size, off + |buf|) else s.files[g].size
    ensures WriteKept(s, u, f, off, buf) && StoredBelow(u, f, off, buf, pos)
  {
    if Tail(s) { TailKept(s, t, u, f, off, |buf|, pos, i); }
    ProgressSizes(t, u, f, off, pos, off + |buf|, i);
    forall k: Holder | Valid(s, k) && k.f != f
      ensures Held(u, k) == Held(s, k)
    {
      ProgressOthers(t, u, f, off, pos, off + |buf|, i, k);
    }
    forall g: nat, p: nat ensures ByteAfter(s, u, f, off, buf, pos, g, p) {
      BytesWritten(s, t, u, f, off, buf, pos, i, g, p);
    }
    forall g: nat, p: nat | !(g == f && off <= p < off + |buf|) && At(s, g, p).Some?
      ensures At(u, g, p) == At(s, g, p)
    {
      assert ByteAfter(s, u, f, off, buf, pos, g, p);
    }
    forall p: nat | off <= p < off + |buf| && p < pos ensures At(u, f, p) == Some(buf[p - off]) {
      assert ByteAfter(s, u, f, off, buf, pos, f, p);
    }
  }

  lemma ProgressOthers(s: State, s': State, f: nat, off: nat, pos: nat, end: nat, i: nat, k: Holder)
    requires Shape(s) && Shape(s') && f < |s.files| && |s'.blocks| == |s.blocks| && |s'.files| == |s.files|
    requires Progress(s, s', f, off, pos, end, i) && Valid(s, k) && k.f != f
    ensures Held(s', k) == Held(s, k)
  {}

  lemma ProgressSizes(s: State, s': State, f: nat, off: nat, pos: nat, end: nat, i: nat)
    requires Shape(s) && f < |s.files| && |s'.files| == |s.files| && Progress(s, s', f, off, pos, end, i)
    ensures forall g :: 0 <= g < |s.files| ==> s'.files[g].size == s.files[g].size
  {}

  /** The state a read leaves: holes it met have blocks, and nothing else moved. */
  ghost predicate ReadLeaves(s: State, s': State, f: nat)
    requires Shape(s)
  {
    && Own(s') && |s'.blocks| == |s.blocks| && SameSizes(s, s') && (Tail(s) ==> Tail(s'))
    && (forall k: Holder :: Kept(s, s', k))
    && (forall k: Holder :: Valid(s, k) && k.f != f ==> Held(s', k) == Held(s, k))
  }

  /** The bytes a read returns are the file's, and were before wherever it had any. */
  ghost predicate ReadsBytes(s: State, s': State, f: nat, off: nat, data: seq<Byte>)
    requires Shape(s) && Shape(s')
  {
    && (forall j :: 0 <= j < |data| ==> At(s', f, off + j) == Some(data[j]))
    && (forall j :: 0 <= j < |data| && At(s, f, off + j).Some? ==> At(s, f, off + j) == Some(data[j]))
  }

  /** What file_read of n bytes within the file does, by result. */
  ghost predicate ReadEffect(s: State, f: nat, off: nat, n: nat, r: Ret, data: seq<Byte>, s': State)
    requires Shape(s) && f < |s.files|
  {
    && r != NotFound
    && (r == NoDisk <==> |s.free| < TransferNeed(s, f, off, n))
    && (r == Inval <==> r != NoDisk && PastLimit(s, off, n))
    && (r == NoDisk ==> !Own(s'))
    && (r != NoDisk ==> ReadLeaves(s, s', f))
    && (r == Ok ==>
          |data| == n && ReadsBytes(s, s', f, off, data) && |s.free| == |s'.free| + TransferNeed(s, f, off, n))
  }

  lemma ReadDone(s: State, t: State, f: nat, off: nat, pos: nat, end: nat, i: nat, data: seq<Byte>)
    requires Shape(s) && f < |s.files| && Reading(s, t, f, off, pos, end, i, data) && end <= s.files[f].size
    ensures ReadLeaves(s, t, f) && ReadsBytes(s, t, f, off, data)
  {
    if Tail(s) { ProgressTail(s, t, f, off, pos, end, i); }
    ProgressSizes(s, t, f, off, pos, end, i);
    forall k: Holder | Valid(s, k) && k.f != f
      ensures Held(t, k) == Held(s, k)
    {
      ProgressOthers(s, t, f, off, pos, end, i, k);
    }
    ReadAgrees(s, t, f, off, data);
  }

  lemma ReadFinished(s: State, t: State, f: nat, off: nat, n: nat, r: Ret, data: seq<Byte>, pos: nat, i: nat)
    requires Shape(s) && f < |s.files| && off + n <= s.files[f].size && r != NotFound
    requires r == NoDisk ==> !Own(t) && |s.free| < TransferNeed(s, f, off, n)
    requires r != NoDisk ==> Reading(s, t, f, off, pos, off + n, i, data)
    requires (r == Inval ==> pos < off + n && i >= Limit(s)) && (r == Ok ==> pos == off + n)
    ensures ReadEffect(s, f, off, n, r, data, t)
  {
    if r != NoDisk {
      TransferEnds(s, t, f, off, pos, off + n, i, r);
      ReadDone(s, t, f, off, pos, off + n, i, data);
    }
  }

  lemma ReadNothing(s: State, f: nat, off: nat)
    requires Own(s) && f < |s.files|
    ensures ReadEffect(s, f, off, 0, Ok, [], s)
  {}

  /** A write to one file leaves another as many blocks to allocate. */
  lemma OtherNeedSame(s: State, s': State, f: nat, off: nat, buf: seq<Byte>, g: nat, at: nat, count: nat)
    requires Shape(s) && f < |s.files| && g < |s.files| && g != f && WriteKept(s, s', f, off, buf)
    ensures TransferNeed(s', g, at, count) == TransferNeed(s, g, at, count)
  {
    assert Held(s', Ind(g)) == Held(s, Ind(g));
    EmptySame(s, s', g, at / BLKSIZE, Min(Count(at + count), Limit(s)));
  }

  /** Every byte from off to off + count is there. */
  ghost predicate Present(s: State, f: nat, off: nat, count: nat)
    requires Shape(s)
  {
    forall p: nat :: off <= p < off + count ==> At(s, f, p).Some?
  }

  lemma PresentBlock(s: State, f: nat, off: nat, count: nat, i: nat)
    requires Shape(s) && f < |s.files| && Present(s, f, off, count) && off / BLKSIZE <= i < Count(off + count)
    requires count > 0
    ensures i < MAXBLOCKS && Held(s, Data(f, i)) != 0
  {
    var p := Max(off, i * BLKSIZE);
    assert p / BLKSIZE == i && At(s, f, p).Some?;
  }

  lemma {:induction false} PresentNoneEmpty(s: State, f: nat, off: nat, count: nat, hi: nat)
    requires Shape(s) && f < |s.files| && Present(s, f, off, count) && count > 0 && hi <= Count(off + count)
    requires hi <= MAXBLOCKS
    ensures Empty(s, f, off / BLKSIZE, hi) == 0
    decreases hi
  {
    if off / BLKSIZE < hi {
      PresentNoneEmpty(s, f, off, count, hi - 1);
      PresentBlock(s, f, off, count, hi - 1);
    }
  }

  /** Bytes that are there take no block to transfer. */
  lemma PresentNeedsNone(s: State, f: nat, off: nat, count: nat)
    requires Shape(s) && f < |s.files| && Present(s, f, off, count)
    ensures TransferNeed(s, f, off, count) == 0
  {
    if count > 0 {
      var hi := Min(Count(off + count), Limit(s));
      PresentNoneEmpty(s, f, off, count, hi);
      if off / BLKSIZE < hi && NDIRECT < hi { PresentBlock(s, f, off, count, hi - 1); }
    }
  }

  /** Two writes to different files both succeed. */
  predicate BothFit(s: State, f: nat, off: nat, n: nat, g: nat, at: nat, m: nat)
    requires Shape(s) && f < |s.files| && g < |s.files|
  {
    && !PastLimit(s, off, n) && !PastLimit(s, at, m)
    && TransferNeed(s, f, off, n) + TransferNeed(s, g, at, m) <= |s.free|
  }

  lemma StillStored(s: State, s': State, f: nat, off: nat, buf: seq<Byte>, g: nat, at: nat, other: seq<Byte>)
    requires Shape(s) && Shape(s') && f < |s.files| && g < |s.files| && f != g
    requires Stored(s, f, off, buf) && WriteKept(s, s', g, at, other)
    ensures Stored(s', f, off, buf)
  {
    forall p: nat | off <= p < off + |buf| ensures At(s', f, p) == Some(buf[p - off]) {
      assert At(s, f, p) == Some(buf[p - off]);
    }
  }

  /** A read of stored bytes succeeds, allocates nothing and returns them. */
  lemma StoredRead(s: State, f: nat, off: nat, buf: seq<Byte>, r: Ret, data: seq<Byte>, s': State)
    requires Shape(s) && f < |s.files| && Stored(s, f, off, buf) && !PastLimit(s, off, |buf|)
    requires ReadEffect(s, f, off, Min(|buf|, Left(s.files[f].size, off)), r, data, s')
    ensures r == Ok && data == buf && |s'.free| == |s.free|
  {
    forall p: nat | off <= p < off + |buf| ensures At(s, f, p).Some? { assert At(s, f, p) == Some(buf[p - off]); }
    PresentNeedsNone(s, f, off, |buf|);
    if |buf| > 0 { assert At(s, f, off + |buf| - 1).Some?; }
    forall j | 0 <= j < |data| ensures data[j] == buf[j] { assert At(s, f, off + j) == Some(buf[off + j - off]); }
  }

  /* ---- runs ---- */

  datatype Op = WriteOp(f: nat, buf: seq<Byte>, off: nat) | ReadOp(f: nat, count: nat, off: nat)
              | ResizeOp(f: nat, size: nat) | FetchOp(f: nat, i: nat)

  datatype Reply = Reply(r: Ret, data: seq<Byte>)

  /** What file_get_block does, by result. */
  ghost predicate FetchEffect(s: State, f: nat, i: nat, r: Ret, s': State)
    requires Shape(s) && f < |s.files|
  {
    && r != NotFound
    && (r == Inval <==> i >= Limit(s))
    && (r == NoDisk <==> i < Limit(s) && |s.free| < Need(s, f, i))
    && (r == NoDisk ==> !Own(s'))
    && (r == Inval ==> s' == s)
    && (r == Ok ==> Fetched(s, s', f, i))
  }

  ghost predicate Performed(s: State, op: Op, a: Reply, s': State)
    requires Shape(s) && op.f < |s.files|
  {
    match op
    case WriteOp(f, buf, off) => WriteEffect(s, f, off, buf, a.r, s')
    case ReadOp(f, count, off) => ReadEffect(s, f, off, Min(count, Left(s.files[f].size, off)), a.r, a.data, s')
    case ResizeOp(f, size) => a.r == Ok && Resized(s, s', f, size)
    case FetchOp(f, i) => FetchEffect(s, f, i, a.r, s')
  }

  /** The states a run goes through: each from an owned one by what the operation does. */
  ghost predicate IsRun(s0: State, ops: seq<Op>, rs: seq<Reply>, tr: seq<State>)
    decreases |rs|
  {
    && |rs| <= |ops| && |tr| == |rs| + 1 && tr[0] == s0
    && (|rs| > 0 ==>
          var k := |rs| - 1;
          && IsRun(s0, ops, rs[..k], tr[..|rs|])
          && Own(tr[k]) && ops[k].f < |tr[k].files| && Performed(tr[k], ops[k], rs[k], tr[|rs|]))
  }

  lemma RunMore(s0: State, ops: seq<Op>, rs: seq<Reply>, tr: seq<State>, a: Reply, s': State)
    requires IsRun(s0, ops, rs, tr) && |rs| < |ops|
    requires var s := tr[|rs|]; Own(s) && ops[|rs|].f < |s.files| && Performed(s, ops[|rs|], a, s')
    ensures IsRun(s0, ops, rs + [a], tr + [s'])
  {
    assert (rs + [a])[..|rs|] == rs && (tr + [s'])[..|tr|] == tr;
  }

  /** A fetch that succeeded was of a block within its file. */
  predicate Within(s: State, op: Op, a: Reply)
  {
    op.FetchOp? && op.f < |s.files| && a.r == Ok ==> op.i < Count(s.files[op.f].size)
  }

  /** An owned state has nothing in the slots past the end of any file. */
  ghost predicate Trim(s: State) { Own(s) ==> Tail(s) }

  /** Fetching keeps the slots past the end empty exactly when the block is within the file. */
  lemma FetchTailIff(s: State, s': State, f: nat, i: nat)
    requires Shape(s) && Tail(s) && f < |s.files| && i < MAXBLOCKS && Fetched(s, s', f, i)
    ensures Tail(s') <==> i < Count(s.files[f].size)
  {
    assert s'.files[f].size == s.files[f].size;
    if i < Count(s.files[f].size) {
      forall g, j | 0 <= g < |s'.files| && Count(s'.files[g].size) <= j < MAXBLOCKS ensures Held(s', Data(g, j)) == 0 {
        assert Held(s', Data(g, j)) == Held(s, Data(g, j));
      }
    }
  }

  lemma StepTailIff(s: State, op: Op, a: Reply, s': State)
    requires Own(s) && Tail(s) && op.f < |s.files| && Performed(s, op, a, s')
    ensures Trim(s') <==> Within(s, op, a)
  {
    match op
    case WriteOp(f, buf, off) =>
    case ReadOp(f, count, off) =>
    case ResizeOp(f, size) => ResizedTail(s, s', f, size);
    case FetchOp(f, i) => if a.r == Ok { FetchTailIff(s, s', f, i); }
  }

  ghost predicate AllTrim(tr: seq<State>) { |tr| > 0 ==> Trim(tr[|tr| - 1]) && AllTrim(tr[..|tr| - 1]) }

  ghost predicate AllWithin(ops: seq<Op>, rs: seq<Reply>, tr: seq<State>)
    requires |rs| <= |ops| && |rs| <= |tr|
    decreases |rs|
  {
    |rs| > 0 ==> var k := |rs| - 1; Within(tr[k], ops[k], rs[k]) && AllWithin(ops, rs[..k], tr[..|rs|])
  }

  /** Over any run, the slots past every end stay empty if and only if each fetch that succeeded was of
      a block within its file. */
  lemma {:induction false} RunTailIff(s0: State, ops: seq<Op>, rs: seq<Reply>, tr: seq<State>)
    requires Own(s0) && Tail(s0) && IsRun(s0, ops, rs, tr)
    ensures AllTrim(tr) <==> AllWithin(ops, rs, tr)
    decreases |rs|
  {
    if |rs| == 0 {
      assert tr[..0] == [];
    } else {
      var k := |rs| - 1;
      RunTailIff(s0, ops, rs[..k], tr[..|rs|]);
      if AllTrim(tr[..|rs|]) { StepTailIff(tr[k], ops[k], rs[k], tr[k + 1]); }
    }
  }

  /** What a run may go on from: only a failed allocation leaves a state that is not owned. */
  lemma StepOwn(s: State, op: Op, a: Reply, s': State)
    requires Own(s) && op.f < |s.files| && Performed(s, op, a, s')
    ensures Own(s') <==> a.r != NoDisk
    ensures Own(s') ==> |s'.files| == |s.files|
  {}

  /** Operation j of a run, and the owned state it was performed in. */
  lemma {:induction false} RunStep(s0: State, ops: seq<Op>, rs: seq<Reply>, tr: seq<State>, j: nat)
    requires IsRun(s0, ops, rs, tr) && j < |rs|
    ensures Own(tr[j]) && ops[j].f < |tr[j].files| && Performed(tr[j], ops[j], rs[j], tr[j + 1])
    decreases |rs|
  {
    if j < |rs| - 1 { RunStep(s0, ops, rs[..|rs| - 1], tr[..|rs|], j); }
  }

  /** The operations that may change or drop byte p of file f. */
  predicate Touches(op: Op, f: nat, p: nat) {
    op.f == f && match op
                 case WriteOp(_, buf, off) => off <= p < off + |buf|
                 case ResizeOp(_, size) => size <= p
                 case ReadOp(_, _, _) => false
                 case FetchOp(_, _) => false
  }

  lemma ByteKept(s: State, s': State, f: nat, p: nat)
    requires Shape(s) && Shape(s') && |s'.blocks| == |s.blocks| && |s'.files| == |s.files| && f < |s.files|
    requires Kept(s, s', Data(f, p / BLKSIZE)) && p < s'.files[f].size && At(s, f, p).Some?
    ensures At(s', f, p) == At(s, f, p)
  {
    CellKept(s, s', f, p / BLKSIZE, p % BLKSIZE);
  }

  lemma StepKeepsByte(s: State, op: Op, a: Reply, s': State, f: nat, p: nat)
    requires Own(s) && op.f < |s.files| && Performed(s, op, a, s') && Own(s')
    requires At(s, f, p).Some? && !Touches(op, f, p)
    ensures At(s', f, p) == At(s, f, p)
  {
    match op
    case WriteOp(_, buf, off) =>
    case ReadOp(_, _, _) => ByteKept(s, s', f, p);
    case ResizeOp(_, size) => ByteKept(s, s', f, p);
    case FetchOp(_, i) => if a.r == Ok { ByteKept(s, s', f, p); }
  }

  /** Over any run, a byte stays what it is until an operation touches it. */
  lemma {:induction false} RunKeepsByte(s0: State, ops: seq<Op>, rs: seq<Reply>, tr: seq<State>, i: nat, f: nat, p: nat)
    requires IsRun(s0, ops, rs, tr) && i <= |rs| && Own(tr[|rs|]) && Own(tr[i]) && At(tr[i], f, p).Some?
    requires forall j :: i <= j < |rs| ==> !Touches(ops[j], f, p)
    ensures At(tr[|rs|], f, p) == At(tr[i], f, p)
    decreases |rs|
  {
    if i < |rs| {
      var k := |rs| - 1;
      RunKeepsByte(s0, ops, rs[..k], tr[..|rs|], i, f, p);
      StepKeepsByte(tr[k], ops[k], rs[k], tr[|rs|], f, p);
    }
  }

  lemma WriteSetsByte(s: State, op: Op, a: Reply, s': State, p: nat)
    requires Own(s) && op.f < |s.files| && Performed(s, op, a, s') && op.WriteOp? && a.r == Ok
    requires op.off <= p < op.off + |op.buf|
    ensures Own(s') && At(s', op.f, p) == Some(op.buf[p - op.off])
  {
    assert Stored(s', op.f, op.off, op.buf);
  }

  lemma ReadGetsByte(s: State, op: Op, a: Reply, s': State, p: nat, x: Byte)
    requires Own(s) && op.f < |s.files| && Performed(s, op, a, s') && op.ReadOp? && a.r == Ok
    requires op.off <= p < op.off + |a.data| && At(s, op.f, p) == Some(x)
    ensures a.data[p - op.off] == x
  {
    var j := p - op.off;
    assert At(s, op.f, op.off + j) == Some(a.data[j]);
  }

  /** A read returns what was last written: if operation i wrote byte p and nothing touched it since,
      the read that ends the run returns the byte of i's buffer. */
  lemma ReadsLastWrite(s0: State, ops: seq<Op>, rs: seq<Reply>, tr: seq<State>, i: nat, k: nat, p: nat)
    requires IsRun(s0, ops, rs, tr) && i < k && k + 1 == |rs|
    requires ops[i].WriteOp? && rs[i].r == Ok && ops[i].off <= p < ops[i].off + |ops[i].buf|
    requires ops[k].ReadOp? && rs[k].r == Ok && ops[k].off <= p < ops[k].off + |rs[k].data| && ops[k].f == ops[i].f
    requires forall j :: i < j < k ==> !Touches(ops[j], ops[i].f, p)
    ensures rs[k].data[p - ops[k].off] == ops[i].buf[p - ops[i].off]
  {
    RunStep(s0, ops, rs, tr, i);
    WriteSetsByte(tr[i], ops[i], rs[i], tr[i + 1], p);
    RunKeepsByte(s0, ops, rs[..k], tr[..|rs|], i + 1, ops[i].f, p);
    ReadGetsByte(tr[k], ops[k], rs[k], tr[|rs|], p, ops[i].buf[p - ops[i].off]);
  }
}
