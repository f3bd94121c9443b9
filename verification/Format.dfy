/** fsformat: lays out an image that the file server can mount. */
module Format {
  import opened Blocks
  import opened Disk
  import opened FileSystem
  import opened Options
  import opened FileIo
  import opened Transfer
  import Bitmap

  const MAXFILESIZE: nat := 1034 * 4096
  const MAX_DIR_ENTS: nat := 128

  predicate Past(b: nat, lo: nat, n: nat) { lo <= b < n }

  /** The blocks not laid out yet. */
  function From(lo: nat, n: nat): set<nat> { set b: nat | b < n && Past(b, lo, n) }

  /** Every place names a block below lo. */
  ghost predicate HeldBelow(s: State, lo: nat)
    requires Shape(s)
  {
    forall k: Holder :: Valid(s, k) ==> Held(s, k) < lo
  }

  /** The image so far: laid out up to block pos, blank from there on. */
  ghost predicate Laid(s: State, pos: nat) {
    && Own(s) && Tail(s) && HeldBelow(s, pos)
    && Bitmap.Reserved(|s.blocks|) <= pos < |s.blocks| && s.free == From(pos, |s.blocks|)
    && forall b :: pos <= b < |s.blocks| ==> s.blocks[b] == Zero()
  }

  /** A place may take any block out of the free set that no place names. */
  lemma NameKeeps(s: State, s': State, h: Holder, b: nat)
    requires Own(s) && Valid(s, h) && Bitmap.Reserved(|s.blocks|) <= b < |s.blocks| && b !in s.free
    requires forall k: Holder :: Valid(s, k) ==> Held(s, k) != b
    requires OnlyChanged(s, s', h, b) && s'.free == s.free
    ensures Own(s')
  {
    forall k: Holder ensures InUse(s', k) { assert InUse(s, k); }
    forall k: Holder, l: Holder ensures Distinct(s', k, l) { assert Distinct(s, k, l); }
  }

  /** File f names the blocks from start on in slots below i, and none from i on. */
  ghost predicate Named(s: State, f: nat, start: nat, i: nat)
    requires Shape(s) && f < |s.files|
  {
    forall j :: 0 <= j < MAXBLOCKS ==> Held(s, Data(f, j)) == if j < i then start + j else 0
  }

  /** Only what file f names changed. */
  ghost predicate OnlyFile(s: State, s': State, f: nat)
    requires Shape(s)
  {
    && Shape(s') && |s'.blocks| == |s.blocks| && |s'.files| == |s.files|
    && (forall k: Holder :: Valid(s, k) && k.f != f ==> Held(s', k) == Held(s, k))
    && (forall k: Holder :: k.f != f ==> Kept(s, s', k))
    && (forall g :: 0 <= g < |s.files| && g != f ==> s'.files[g].size == s.files[g].size)
  }

  lemma OnlyFileTwice(s: State, t: State, u: State, f: nat)
    requires Shape(s) && OnlyFile(s, t, f) && OnlyFile(t, u, f)
    ensures OnlyFile(s, u, f)
  {
    forall k: Holder | k.f != f ensures Kept(s, u, k) { assert Kept(s, t, k) && Kept(t, u, k); }
  }

  /** One more slot of f names the next block of its run. */
  lemma NameNext(s: State, f: nat, start: nat, i: nat)
    requires Own(s) && Reachable(s, Data(f, i)) && Named(s, f, start, i) && s.files[f].indirect != start + i
    requires Bitmap.Reserved(|s.blocks|) <= start && start + i < |s.blocks| && start + i !in s.free
    requires forall k: Holder :: Valid(s, k) && k.f != f ==> Held(s, k) != start + i
    ensures var s' := PutSlot(s, Data(f, i), start + i);
            Own(s') && Named(s', f, start, i + 1) && OnlyFile(s, s', f) && s'.files[f].indirect == s.files[f].indirect
  {
    var h, b := Data(f, i), start + i;
    PutChanges(s, h, b);
    forall k: Holder | Valid(s, k) ensures Held(s, k) != b {
      if k.f == f && k.Data? { assert Held(s, Data(f, k.i)) == if k.i < i then start + k.i else 0; }
    }
    NameKeeps(s, PutSlot(s, h, b), h, b);
  }

  lemma FillStep(s: State, t: State, f: nat, start: nat, i: nat) returns (u: State)
    requires Shape(s) && Own(t) && OnlyFile(s, t, f) && NDIRECT <= i && Reachable(t, Data(f, i))
    requires Named(t, f, start, i)
    requires Bitmap.Reserved(|t.blocks|) <= start && start + i < t.files[f].indirect && start + i !in t.free
    requires forall k: Holder :: Valid(s, k) && k.f != f ==> Held(s, k) < start
    ensures var ind := t.files[f].indirect;
            u == t.(blocks := t.blocks[ind := Store(t.blocks[ind], i - NDIRECT, start + i)])
    ensures Own(u) && OnlyFile(s, u, f) && Named(u, f, start, i + 1)
  {
    u := PutSlot(t, Data(f, i), start + i);
    NameNext(t, f, start, i);
    OnlyFileTwice(s, t, u, f);
  }

  /** Bytes written where no place points move nothing. */
  lemma UnnamedWrite(s: State, s': State, lo: nat)
    requires Own(s) && HeldBelow(s, lo) && |s'.blocks| == |s.blocks| && s'.files == s.files && s'.free <= s.free
    requires forall b :: 0 <= b < lo && b < |s.blocks| ==> s'.blocks[b] == s.blocks[b]
    ensures Own(s') && forall k: Holder :: Kept(s, s', k) && (Valid(s, k) ==> Held(s', k) == Held(s, k))
  {
    forall k: Holder ensures Kept(s, s', k) && (Valid(s, k) ==> Held(s', k) == Held(s, k)) {
      if Valid(s, k) { assert Held(s, Ind(k.f)) < lo && Held(s, k) < lo; }
    }
    forall k: Holder ensures InUse(s', k) { assert InUse(s, k); }
    forall k: Holder, l: Holder ensures Distinct(s', k, l) { assert Distinct(s, k, l); }
  }

  function Blank(): File { File(0, seq(NDIRECT, _ => 0), 0) }

  /** A zeroed directory entry names nothing. */
  lemma AddedBlank(s: State, s': State)
    requires Own(s) && s' == s.(files := s.files + [Blank()])
    ensures Own(s') && forall k: Holder :: Valid(s', k) ==> Held(s', k) == if k.f < |s.files| then Held(s, k) else 0
  {
    forall k: Holder | Valid(s', k) ensures Held(s', k) == if k.f < |s.files| then Held(s, k) else 0 {}
    forall k: Holder ensures InUse(s', k) { assert InUse(s, k); }
    forall k: Holder, l: Holder ensures Distinct(s', k, l) { assert Distinct(s, k, l); }
  }

  /** File f is ready for its run: it names nothing, its blocks are set aside below pos. */
  ghost predicate Waiting(s: State, f: nat, start: nat, m: nat, pos: nat) {
    && Own(s) && f < |s.files| && Named(s, f, start, 0) && s.files[f].indirect == 0 && HeldBelow(s, start)
    && Bitmap.Reserved(|s.blocks|) <= start && start + m <= pos < |s.blocks| && m <= MAXBLOCKS
    && s.free == From(pos, |s.blocks|) && forall b :: pos <= b < |s.blocks| ==> s.blocks[b] == Zero()
  }

  lemma StagedFile(s: State, t: State, u: State, f: nat, start: nat)
    requires Shape(s) && Shape(t) && f < |s.files| && OnlyFile(s, t, f) && Named(t, f, start, NDIRECT)
    requires Stage(t, u, Ind(f), 1)
    requires forall k: Holder :: Valid(s, k) && k.f != f ==> Held(s, k) < start
    ensures OnlyFile(s, u, f) && Named(u, f, start, NDIRECT)
    ensures forall k: Holder :: Valid(u, k) && k.f != f ==> Held(u, k) < start
  {
    forall k: Holder | k.f != f ensures Kept(s, u, k) { assert Kept(s, t, k) && Kept(t, u, k); }
    forall j | 0 <= j < MAXBLOCKS ensures Held(u, Data(f, j)) == if j < NDIRECT then start + j else 0 {
      assert Held(u, Data(f, j)) == Held(t, Data(f, j));
    }
  }

  lemma FinishDone(s: State, t: State, u: State, f: nat, start: nat, len: nat, pos: nat)
    requires Shape(s) && f < |s.files| && HeldBelow(s, start) && Tail(s) && Own(t) && OnlyFile(s, t, f)
    requires Named(t, f, start, Count(len)) && Count(len) <= MAXBLOCKS && t.files[f].indirect < pos
    requires start + Count(len) <= pos
    requires Bitmap.Reserved(|t.blocks|) <= pos < |t.blocks| && t.free == From(pos, |t.blocks|)
    requires forall b :: pos <= b < |t.blocks| ==> t.blocks[b] == Zero()
    requires u == t.(files := t.files[f := t.files[f].(size := len)])
    ensures Laid(u, pos) && Named(u, f, start, Count(len)) && OnlyFile(s, u, f)
  {
    SizeOnly(t, u, f, len);
    forall k: Holder | k.f != f ensures Kept(s, u, k) { assert Kept(s, t, k) && Kept(t, u, k); }
    forall k: Holder | Valid(u, k) ensures Held(u, k) < pos {
      if k.f == f && k.Data? { assert Held(t, Data(f, k.i)) == if k.i < Count(len) then start + k.i else 0; }
    }
    forall g, i | 0 <= g < |u.files| && Count(u.files[g].size) <= i < MAXBLOCKS ensures Held(u, Data(g, i)) == 0 {
      assert Held(u, Data(g, i)) == Held(t, Data(g, i));
      if g != f { assert Held(t, Data(g, i)) == Held(s, Data(g, i)); }
    }
  }

  /** File j has the bytes of data, in one run of blocks that crosses into the indirect block unbroken. */
  ghost predicate FileIs(s: State, j: nat, data: seq<Byte>)
    requires Shape(s)
  {
    && j < |s.files| && s.files[j].size == |data| && Count(|data|) <= MAXBLOCKS
    && (forall i :: 0 <= i < Count(|data|) ==> Held(s, Data(j, i)) == Held(s, Data(j, 0)) + i)
    && (forall p :: 0 <= p < |data| ==> At(s, j, p) == Some(data[p]))
  }

  lemma FileStays(s: State, s': State, j: nat, data: seq<Byte>)
    requires Shape(s) && Shape(s') && |s'.blocks| == |s.blocks| && |s.files| <= |s'.files|
    requires FileIs(s, j, data) && s'.files[j].size == s.files[j].size
    requires forall i :: 0 <= i < MAXBLOCKS ==> Held(s', Data(j, i)) == Held(s, Data(j, i))
    requires forall i :: 0 <= i < MAXBLOCKS && 0 < Held(s, Data(j, i)) < |s.blocks| ==>
      s'.blocks[Held(s, Data(j, i))] == s.blocks[Held(s, Data(j, i))]
    ensures FileIs(s', j, data)
  {
    forall p | 0 <= p < |data| ensures At(s', j, p) == Some(data[p]) {
      assert At(s, j, p) == Some(data[p]);
      assert Held(s', Data(j, p / BLKSIZE)) == Held(s, Data(j, p / BLKSIZE));
    }
  }

  /** The run from start holds the bytes of data. */
  ghost predicate Filed(blocks: seq<Block>, start: nat, data: seq<Byte>) {
    && start + Count(|data|) <= |blocks|
    && forall p :: 0 <= p < |data| ==> blocks[start + p / BLKSIZE][p % BLKSIZE] == data[p]
  }

  lemma FileMade(s: State, f: nat, start: nat, data: seq<Byte>)
    requires Shape(s) && f < |s.files| && s.files[f].size == |data| && Count(|data|) <= MAXBLOCKS && 0 < start
    requires Named(s, f, start, Count(|data|)) && Filed(s.blocks, start, data)
    ensures FileIs(s, f, data)
  {
    forall p | 0 <= p < |data| ensures At(s, f, p) == Some(data[p]) {
      assert p / BLKSIZE < Count(|data|);
      assert Held(s, Data(f, p / BLKSIZE)) == start + p / BLKSIZE;
    }
  }

  /** A zeroed record and a run set aside, with bytes in the run only. */
  lemma Prepared(s: State, s': State, pos: nat, pos': nat)
    requires Laid(s, pos) && pos <= pos' < |s.blocks| && pos' - pos <= MAXBLOCKS
    requires s'.files == s.files + [Blank()] && |s'.blocks| == |s.blocks| && s'.free == From(pos', |s.blocks|)
    requires forall b :: 0 <= b < |s.blocks| && !(pos <= b < pos') ==> s'.blocks[b] == s.blocks[b]
    ensures Waiting(s', |s.files|, pos, pos' - pos, pos') && Tail(s')
    ensures forall k: Holder :: Valid(s, k) ==> Held(s', k) == Held(s, k)
  {
    var t := s.(files := s.files + [Blank()]);
    AddedBlank(s, t);
    UnnamedWrite(t, s', pos);
    forall k: Holder | Valid(s', k) ensures Held(s', k) == if k.f < |s.files| then Held(s, k) else 0 {
      assert Held(s', k) == Held(t, k);
    }
  }

  /** Every file already laid out is as it was. */
  lemma FilesStay(s: State, t: State, u: State, pos: nat, pos': nat, j: nat, data: seq<Byte>)
    requires Laid(s, pos) && Shape(t) && t.files == s.files + [Blank()] && |t.blocks| == |s.blocks|
    requires forall k: Holder :: Valid(s, k) ==> Held(t, k) == Held(s, k)
    requires forall b :: 0 <= b < |s.blocks| && !(pos <= b < pos') ==> t.blocks[b] == s.blocks[b]
    requires OnlyFile(t, u, |s.files|) && j < |s.files| && FileIs(s, j, data)
    ensures FileIs(u, j, data)
  {
    forall i | 0 <= i < MAXBLOCKS
      ensures Held(u, Data(j, i)) == Held(s, Data(j, i))
      ensures 0 < Held(s, Data(j, i)) < |s.blocks| ==> u.blocks[Held(s, Data(j, i))] == s.blocks[Held(s, Data(j, i))]
    {
      assert Kept(t, u, Data(j, i)) && Held(s, Data(j, i)) < pos && Held(t, Data(j, i)) == Held(s, Data(j, i));
    }
    assert t.files[j].size == s.files[j].size;
    FileStays(s, u, j, data);
  }

  /** The files laid out so far are those of contents. */
  ghost predicate Image(s: State, contents: seq<seq<Byte>>)
    requires Shape(s)
  {
    |contents| <= |s.files| && forall j :: 0 <= j < |contents| ==> FileIs(s, j, contents[j])
  }

  lemma FileAdded(s: State, t: State, u: State, start: nat, pos': nat, data: seq<Byte>, contents: seq<seq<Byte>>)
    requires Laid(s, start) && |s.files| == |contents| && Image(s, contents) && Count(|data|) <= MAXBLOCKS
    requires Shape(t) && t.files == s.files + [Blank()] && |t.blocks| == |s.blocks| && Filed(t.blocks, start, data)
    requires forall k: Holder :: Valid(s, k) ==> Held(t, k) == Held(s, k)
    requires start + Count(|data|) == pos'
    requires forall b :: 0 <= b < |s.blocks| && !(start <= b < pos') ==> t.blocks[b] == s.blocks[b]
    requires OnlyFile(t, u, |s.files|) && Named(u, |s.files|, start, Count(|data|)) && u.files[|s.files|].size == |data|
    requires pos' < |u.blocks| && forall b :: 0 <= b < pos' ==> u.blocks[b] == t.blocks[b]
    ensures Image(u, contents + [data])
  {
    forall j | 0 <= j < |contents| + 1 ensures FileIs(u, j, (contents + [data])[j]) {
      if j < |contents| {
        FilesStay(s, t, u, start, pos', j, contents[j]);
      } else {
        assert forall p :: 0 <= p < |data| ==> p / BLKSIZE < Count(|data|);
        FileMade(u, j, start, data);
      }
    }
  }

  /** Blocks a file of len bytes takes, with its indirect block. */
  function Span(len: nat): nat { Count(len) + (if Count(len) >= NDIRECT then 1 else 0) }

  function Total(contents: seq<seq<Byte>>): nat {
    if contents == [] then 0 else Total(contents[..|contents| - 1]) + Span(|contents[|contents| - 1]|)
  }

  predicate Sizes(contents: seq<seq<Byte>>) { forall j :: 0 <= j < |contents| ==> |contents[j]| < MAXFILESIZE }

  /** What fsformat accepts: the disk size, the number and sizes of the files, and room for them all. */
  predicate Fits(n: nat, contents: seq<seq<Byte>>) {
    && 2 <= n <= 1024 && |contents| <= MAX_DIR_ENTS && Sizes(contents)
    && 3 + Total(contents) + Count(256 * |contents|) < n
  }

  lemma {:induction false} TotalGrows(contents: seq<seq<Byte>>, i: nat)
    requires i <= |contents|
    ensures Total(contents[..i]) <= Total(contents)
    decreases |contents|
  {
    if i < |contents| {
      var rest := contents[..|contents| - 1];
      assert rest[..i] == contents[..i];
      TotalGrows(rest, i);
    } else {
      assert contents[..i] == contents;
    }
  }

  /** A record that names a block still free breaks ownership. */
  lemma EmptyRootBreaksOwn(s: State, r: File)
    requires Shape(s) && s.files == [r] && |r.direct| == NDIRECT && r.direct[0] in s.free && r.direct[0] != 0
    ensures !Own(s)
  {
    assert !InUse(s, Data(0, 0));
  }

  class Formatter {
    var blocks: seq<Block>
    var files: seq<File>
    var pos: nat

    ghost function S(): State reads this { State(From(pos, |blocks|), blocks, files) }

    /** alloc: false where the source panics for want of blocks. */
    method Alloc(bytes: nat) returns (ok: bool, start: nat)
      modifies `pos
      ensures start == old(pos) && pos == old(pos) + Count(bytes) && (ok <==> pos < |blocks|)
    {
      start := pos;
      pos := pos + Count(bytes);
      ok := pos < |blocks|;
    }

    /** The direct half of finishfile. */
    method NameDirect(f: nat, start: nat, m: nat)
      requires Waiting(S(), f, start, m, pos)
      modifies `files
      ensures Own(S()) && |files| == |old(files)| && OnlyFile(old(S()), S(), f) && files[f].indirect == 0
      ensures Named(S(), f, start, Min(m, NDIRECT))
    {
      ghost var s := S();
      var i: nat := 0;
      while i < m && i < NDIRECT
        invariant i <= m && i <= NDIRECT && |files| == |s.files| && Own(S()) && OnlyFile(s, S(), f)
        invariant files[f].indirect == 0 && Named(S(), f, start, i)
      {
        ghost var t := S();
        NameNext(t, f, start, i);
        files := files[f := files[f].(direct := files[f].direct[i := start + i])];
        OnlyFileTwice(s, t, S(), f);
        i := i + 1;
      }
    }

    /** Takes the next block, still blank, as the indirect block of f. */
    method StartIndirect(f: nat) returns (ok: bool)
      requires Own(S()) && f < |files| && files[f].indirect == 0
      requires Bitmap.Reserved(|blocks|) <= pos < |blocks| && blocks[pos] == Zero()
      modifies `files, `pos
      ensures |files| == |old(files)| && pos == old(pos) + 1 && (ok <==> pos < |blocks|)
      ensures ok ==> Stage(old(S()), S(), Ind(f), 1) && files[f].indirect == old(pos)
    {
      ghost var s := S();
      var ind;
      ok, ind := Alloc(BLKSIZE);
      if !ok { return; }
      files := files[f := files[f].(indirect := ind)];
      assert From(pos, |blocks|) == s.free - {ind} && blocks[ind := Zero()] == blocks;
      WalkedStage(s, S(), f);
    }

    /** The rest of the run goes into the indirect block. */
    method FillIndirect(f: nat, start: nat, m: nat)
      requires Own(S()) && f < |files| && Named(S(), f, start, NDIRECT) && NDIRECT <= m <= MAXBLOCKS
      requires forall k: Holder :: Valid(S(), k) && k.f != f ==> Held(S(), k) < start
      requires Bitmap.Reserved(|blocks|) <= start && start + m <= files[f].indirect < pos <= |blocks|
      modifies `blocks
      ensures |blocks| == |old(blocks)| && Own(S()) && OnlyFile(old(S()), S(), f) && Named(S(), f, start, m)
      ensures forall b :: 0 <= b < |blocks| && b != files[f].indirect ==> blocks[b] == old(blocks)[b]
    {
      ghost var s := S();
      var i: nat, ind := NDIRECT, files[f].indirect;
      while i < m
        invariant NDIRECT <= i <= m && |blocks| == |s.blocks|
        invariant Own(S()) && OnlyFile(s, S(), f) && Named(S(), f, start, i)
        invariant forall b :: 0 <= b < |blocks| && b != ind ==> blocks[b] == s.blocks[b]
      {
        ghost var u := FillStep(s, S(), f, start, i);
        blocks := blocks[ind := Store(blocks[ind], i - NDIRECT, start + i)];
        assert S() == u;
        i := i + 1;
      }
    }

    /** finishfile: the record of f names the run of blocks from start on. */
    method FinishFile(f: nat, start: nat, len: nat) returns (ok: bool)
      requires Waiting(S(), f, start, Count(len), pos) && Tail(S())
      modifies this
      ensures |blocks| == |old(blocks)| && |files| == |old(files)|
      ensures ok <==> old(pos) + (if Count(len) >= NDIRECT then 1 else 0) < |blocks|
      ensures ok ==> Laid(S(), pos) && Named(S(), f, start, Count(len)) && files[f].size == len
      ensures ok ==> pos == old(pos) + (if Count(len) >= NDIRECT then 1 else 0)
      ensures ok ==> OnlyFile(old(S()), S(), f)
      ensures ok ==> forall b :: 0 <= b < old(pos) ==> blocks[b] == old(blocks)[b]
    {
      ghost var s := S();
      var m := Count(len);
      NameDirect(f, start, m);
      ok := true;
      if m >= NDIRECT {
        ghost var t := S();
        ok := StartIndirect(f);
        if !ok { return; }
        StagedFile(s, t, S(), f, start);
        ghost var u := S();
        FillIndirect(f, start, m);
        OnlyFileTwice(s, u, S(), f);
      }
      ghost var v := S();
      files := files[f := files[f].(size := len)];
      FinishDone(s, v, S(), f, start, len, pos);
    }

    /** Copies data into the run of blocks from start on. */
    method CopyData(start: nat, data: seq<Byte>)
      requires start + Count(|data|) <= |blocks|
      modifies `blocks
      ensures |blocks| == |old(blocks)| && Filed(blocks, start, data)
      ensures forall b :: 0 <= b < |blocks| && !(start <= b < start + Count(|data|)) ==> blocks[b] == old(blocks)[b]
    {
      var i: nat := 0;
      while i < Count(|data|)
        invariant i <= Count(|data|) && |blocks| == |old(blocks)|
        invariant forall p :: 0 <= p < |data| && p < i * BLKSIZE ==> blocks[start + p / BLKSIZE][p % BLKSIZE] == data[p]
        invariant forall b :: 0 <= b < |blocks| && !(start <= b < start + Count(|data|)) ==> blocks[b] == old(blocks)[b]
      {
        var chunk := data[i * BLKSIZE..Min(|data|, (i + 1) * BLKSIZE)];
        blocks := blocks[start + i := Patch(blocks[start + i], 0, chunk)];
        i := i + 1;
      }
    }

    /** writefile, on the bytes of one file; false where the source panics. */
    method WriteFile(data: seq<Byte>, ghost contents: seq<seq<Byte>>) returns (ok: bool)
      requires Laid(S(), pos) && |files| == |contents| && Image(S(), contents)
      modifies this
      ensures |blocks| == |old(blocks)|
      ensures ok <==> |data| < MAXFILESIZE && |contents| < MAX_DIR_ENTS && old(pos) + Span(|data|) < |blocks|
      ensures ok ==>
        Laid(S(), pos) && |files| == |contents| + 1 && Image(S(), contents + [data]) && pos == old(pos) + Span(|data|)
    {
      if |data| >= MAXFILESIZE || |files| >= MAX_DIR_ENTS { return false; }
      ghost var s := S();
      var f := |files|;
      files := files + [Blank()];
      var start;
      ok, start := Alloc(|data|);
      if !ok { return; }
      CopyData(start, data);
      ghost var t := S();
      ghost var pos' := pos;
      Prepared(s, t, start, pos');
      ok := FinishFile(f, start, |data|);
      if ok { FileAdded(s, t, S(), start, pos', data, contents); }
    }

    /** opendisk, on a blank image: the boot block, the super block and the bitmap are set aside. */
    constructor (n: nat)
      requires 2 <= n <= 1024
      ensures |blocks| == n && files == [] && pos == 3 && (pos < n ==> Laid(S(), pos))
    {
      blocks := seq(n, _ => Zero());
      files := [];
      pos := 3;
    }

    /** finishdir for a list that is not empty. */
    method FinishDir(ents: seq<Byte>, ghost contents: seq<seq<Byte>>) returns (ok: bool)
      requires Laid(S(), pos) && 0 < |files| == |contents| <= MAX_DIR_ENTS && |ents| == 256 * |contents|
      requires Image(S(), contents)
      modifies this
      ensures |blocks| == |old(blocks)| && (ok <==> old(pos) + Count(|ents|) < |blocks|)
      ensures ok ==> Laid(S(), pos) && |files| == |contents| + 1 && Image(S(), contents)
      ensures ok ==>
        files[|contents|].size == Count(|ents|) * BLKSIZE && Filed(blocks, Held(S(), Data(|contents|, 0)), ents)
    {
      ghost var s := S();
      var f := |files|;
      files := files + [Blank()];
      var start;
      ok, start := Alloc(|ents|);
      if !ok { return; }
      CopyData(start, ents);
      ghost var t := S();
      ghost var pos' := pos;
      Prepared(s, t, start, pos');
      ok := FinishFile(f, start, Count(|ents|) * BLKSIZE);
      forall j | 0 <= j < |contents|
        ensures FileIs(S(), j, contents[j])
      {
        FilesStay(s, t, S(), start, pos', j, contents[j]);
      }
      assert Held(S(), Data(f, 0)) == start;
    }

    /** finishdir for the empty list: the size rounds up to a block that was never set aside. */
    method FinishEmptyDir() returns (ok: bool)
      requires Laid(S(), pos) && files == []
      modifies `files
      ensures ok && |files| == 1 && !Own(S()) && FreeOk(S())
    {
      files := [Blank().(size := BLKSIZE, direct := Blank().direct[0 := pos])];
      EmptyRootBreaksOwn(S(), files[0]);
      ok := true;
    }

    /** finishdisk: every block laid out is marked in use. */
    method FinishDisk() returns (bitmap: array<Bitmap.Word>)
      requires pos <= |blocks|
      ensures fresh(bitmap) && |blocks| <= 32 * bitmap.Length
      ensures Bitmap.FreeSet(bitmap[..], |blocks|) == From(pos, |blocks|)
    {
      bitmap := new Bitmap.Word[1024 * ((|blocks| + 32767) / 32768)](_ => seq(32, _ => true));
      for i := 0 to pos
        invariant forall b: nat :: b < |blocks| ==> (Bitmap.Marked(bitmap[..], b) <==> i <= b)
      {
        Bitmap.WriteBit(bitmap, i, false);
      }
    }

    /** The loop of main over the files. */
    method WriteFiles(contents: seq<seq<Byte>>) returns (ok: bool)
      requires Laid(S(), pos) && files == [] && pos == 3
      modifies this
      ensures |blocks| == |old(blocks)|
      ensures ok <==> |contents| <= MAX_DIR_ENTS && Sizes(contents) && 3 + Total(contents) < |blocks|
      ensures ok ==> |files| == |contents| && Laid(S(), pos) && Image(S(), contents) && pos == 3 + Total(contents)
    {
      for i := 0 to |contents|
        invariant |blocks| == |old(blocks)| && |files| == i <= MAX_DIR_ENTS && Laid(S(), pos)
        invariant Image(S(), contents[..i])
        invariant pos == 3 + Total(contents[..i]) && Sizes(contents[..i])
      {
        var upto := contents[..i + 1];
        assert upto == contents[..i] + [contents[i]] && upto[..i] == contents[..i];
        TotalGrows(contents, i + 1);
        ok := WriteFile(contents[i], contents[..i]);
        if !ok { return; }
      }
      assert contents[..|contents|] == contents;
      ok := true;
    }

    /** The finished image, as the server maps it. */
    method Mount() returns (fs: Server)
      requires pos < |blocks|
      ensures fresh(fs) && fresh(fs.bitmap) && fs.S() == S() && |fs.blocks| == |blocks| <= 32 * fs.bitmap.Length
    {
      var bitmap := FinishDisk();
      fs := new Server(bitmap, blocks, files);
    }
  }

  /** fsformat. It succeeds exactly when the files fit, and then the server can mount the image
      with every file in it, unless the list of files was empty. */
  method Format(n: nat, contents: seq<seq<Byte>>, ents: seq<Byte>) returns (fs: Server?)
    requires |ents| == 256 * |contents|
    ensures fs != null <==> Fits(n, contents)
    ensures fs != null ==> fresh(fs) && fresh(fs.bitmap)
    ensures fs != null ==> |fs.blocks| == n <= 32 * fs.bitmap.Length && |fs.files| == |contents| + 1 && FreeOk(fs.S())
    ensures fs != null ==> (Own(fs.S()) <==> contents != [])
    ensures fs != null && contents != [] ==> fs.Ready() && Tail(fs.S()) && Image(fs.S(), contents)
  {
    if n < 2 || n > 1024 { return null; }
    var img := new Formatter(n);
    if img.pos >= n { return null; }
    var ok := img.WriteFiles(contents);
    if !ok { return null; }
    if |contents| > 0 { ok := img.FinishDir(ents, contents); } else { ok := img.FinishEmptyDir(); }
    if !ok { return null; }
    fs := img.Mount();
  }

  lemma FileWithinLimit(s: State, j: nat, data: seq<Byte>)
    requires Own(s) && FileIs(s, j, data)
    ensures !PastLimit(s, 0, |data|)
  {
    if |data| > 0 {
      var last := Count(|data|) - 1;
      assert At(s, j, |data| - 1).Some? && (|data| - 1) / BLKSIZE == last;
      assert InUse(s, Data(j, last)) && Held(s, Data(j, last)) == Held(s, Data(j, 0)) + last;
    }
  }

  /** A read of a whole file of an image succeeds and returns the bytes the formatter was given. */
  lemma ImageRead(s: State, contents: seq<seq<Byte>>, j: nat, r: Ret, data: seq<Byte>, s': State)
    requires Own(s) && Image(s, contents) && j < |contents|
    requires ReadEffect(s, j, 0, Min(|contents[j]|, Left(s.files[j].size, 0)), r, data, s')
    ensures r == Ok && data == contents[j]
  {
    var c := contents[j];
    assert FileIs(s, j, c);
    FileWithinLimit(s, j, c);
    forall p: nat | 0 <= p < 0 + |c| && p < 0 + |c| ensures At(s, j, p) == Some(c[p - 0]) {
      assert At(s, j, p) == Some(c[p]);
    }
    StoredRead(s, j, 0, c, r, data, s');
  }

  /** fsformat, then a read by the server that mounts the image s. */
  method FormatThenRead(n: nat, contents: seq<seq<Byte>>, ents: seq<Byte>, j: nat)
    returns (fs: Server, ghost s: State, r: Ret, data: seq<Byte>)
    requires |ents| == 256 * |contents| && Fits(n, contents) && j < |contents|
    ensures Own(s) && |s.blocks| == n && Image(s, contents)
    ensures ReadEffect(s, j, 0, Min(|contents[j]|, Left(s.files[j].size, 0)), r, data, fs.S())
    ensures r == Ok && data == contents[j]
  {
    fs := Format(n, contents, ents);
    s := fs.S();
    r, data := Read(fs, j, |contents[j]|, 0);
    ImageRead(s, contents, j, r, data, fs.S());
  }
}
