/** Byte-level file_read and file_write over the block layer. */
module FileIo {
  import opened Blocks
  import opened Disk
  import opened FileSystem
  import opened Transfer

  /** The fetch at the head of both transfer loops. */
  method FetchStep(fs: Server, f: nat, pos: nat, ghost s: State, ghost off: nat, ghost end: nat, ghost i: nat)
    returns (r: Ret, b: nat)
    requires fs.Ready() && f < |fs.files| && Shape(s) && f < |s.files| && |fs.blocks| == |s.blocks|
    requires Progress(s, fs.S(), f, off, pos, end, i) && pos < end
    modifies fs, fs.bitmap
    ensures |fs.blocks| == |old(fs.blocks)| && |fs.files| == |old(fs.files)| && r != NotFound
    ensures r == NoDisk ==> !Own(fs.S()) && |s.free| < TransferNeed(s, f, off, end - off)
    ensures r == Inval ==> fs.S() == old(fs.S()) && i >= Limit(s)
    ensures r == Ok ==>
      i < Limit(s) && Fetched(old(fs.S()), fs.S(), f, i) && b == Held(fs.S(), Data(f, i)) && 0 < b < |fs.blocks|
  {
    ghost var t := fs.S();
    ProgressIndex(s, t, f, off, pos, end, i);
    r, b := fs.GetBlock(f, pos / BLKSIZE);
    if r == NoDisk { FullNeeds(s, t, f, off, pos, end, i); }
    if r == Ok { assert InUse(fs.S(), Data(f, i)); }
  }

  /** One turn of the loop of file_read. */
  method ReadStep(fs: Server, f: nat, pos: nat, end: nat, data: seq<Byte>, ghost s: State, ghost off: nat, ghost i: nat)
    returns (r: Ret, pos': nat, data': seq<Byte>)
    requires fs.Ready() && f < |fs.files| && Shape(s) && f < |s.files|
    requires Reading(s, fs.S(), f, off, pos, end, i, data) && pos < end
    modifies fs, fs.bitmap
    ensures |fs.blocks| == |s.blocks| && |fs.files| == |s.files| && r != NotFound && pos < pos'
    ensures r == NoDisk ==> !Own(fs.S()) && |s.free| < TransferNeed(s, f, off, end - off)
    ensures r == Inval ==> fs.S() == old(fs.S()) && i >= Limit(s)
    ensures r == Ok ==> Reading(s, fs.S(), f, off, pos', end, i + 1, data')
  {
    ghost var t := fs.S();
    var bn := Min(BLKSIZE - pos % BLKSIZE, end - pos);
    pos', data' := pos + bn, data;
    var b;
    r, b := FetchStep(fs, f, pos, s, off, end, i);
    if r == Ok {
      ReadAdvance(s, t, fs.S(), f, off, pos, end, i, data, bn);
      data' := data + fs.blocks[b][pos % BLKSIZE..pos % BLKSIZE + bn];
    }
  }

  /** The loop of file_read. */
  method ReadLoop(fs: Server, f: nat, off: nat, end: nat, ghost s: State)
    returns (r: Ret, data: seq<Byte>, pos: nat, ghost i: nat)
    requires fs.Ready() && f < |fs.files| && off <= end && s == fs.S()
    modifies fs, fs.bitmap
    ensures |fs.blocks| == |s.blocks| && |fs.files| == |s.files| && r != NotFound
    ensures r == NoDisk ==> !Own(fs.S()) && |s.free| < TransferNeed(s, f, off, end - off)
    ensures r != NoDisk ==> Reading(s, fs.S(), f, off, pos, end, i, data)
    ensures r == Inval ==> pos < end && i >= Limit(s)
    ensures r == Ok ==> pos == end
  {
    r, data, pos, i := Ok, [], off, off / BLKSIZE;
    ReadingStart(s, f, off, end);
    while pos < end
      invariant r == Ok && Reading(s, fs.S(), f, off, pos, end, i, data)
    {
      var pos', data';
      r, pos', data' := ReadStep(fs, f, pos, end, data, s, off, i);
      if r != Ok { return; }
      pos, i, data := pos', i + 1, data';
    }
  }

  /** file_read. Returns the bytes the file has there, and changes no byte of any file. */
  method Read(fs: Server, f: nat, count: nat, off: nat) returns (r: Ret, data: seq<Byte>)
    requires fs.Ready() && f < |fs.files|
    modifies fs, fs.bitmap
    ensures |fs.blocks| == |old(fs.blocks)| && |fs.files| == |old(fs.files)|
    ensures ReadEffect(old(fs.S()), f, off, Min(count, Left(old(fs.files)[f].size, off)), r, data, fs.S())
  {
    ghost var s := fs.S();
    if off >= fs.files[f].size {
      ReadNothing(s, f, off);
      return Ok, [];
    }
    var n := Min(count, fs.files[f].size - off);
    var pos;
    ghost var i;
    r, data, pos, i := ReadLoop(fs, f, off, off + n, s);
    ReadFinished(s, fs.S(), f, off, n, r, data, pos, i);
  }

  /** One turn of the loop of file_write: a fetch, giving u, and the copy into the block. */
  method WriteStep(fs: Server, f: nat, off: nat, buf: seq<Byte>, pos: nat, bn: nat, ghost s: State, ghost i: nat)
    returns (r: Ret, ghost u: State)
    requires fs.Ready() && f < |fs.files| && Shape(s) && f < |s.files| && |fs.blocks| == |s.blocks|
    requires |fs.files| == |s.files|
    requires Progress(s, fs.S(), f, off, pos, off + |buf|, i) && pos < off + |buf|
    requires bn == Min(BLKSIZE - pos % BLKSIZE, off + |buf| - pos)
    modifies fs, fs.bitmap
    ensures |fs.blocks| == |s.blocks| && |fs.files| == |s.files| && r != NotFound
    ensures r == NoDisk ==> !Own(fs.S()) && |s.free| < TransferNeed(s, f, off, |buf|)
    ensures r == Inval ==> fs.S() == old(fs.S()) && i >= Limit(s)
    ensures r == Ok ==> i < Limit(s) && Fetched(old(fs.S()), u, f, i) && 0 < Held(u, Data(f, i)) < |u.blocks|
    ensures r == Ok ==> fs.S() == Poked(u, Held(u, Data(f, i)), pos % BLKSIZE, buf[pos - off..pos - off + bn])
  {
    var b;
    r, b := FetchStep(fs, f, pos, s, off, off + |buf|, i);
    u := fs.S();
    if r == Ok { fs.Poke(b, pos % BLKSIZE, buf[pos - off..pos - off + bn]); }
  }

  /** A turn keeps the write on course. */
  method WriteTurn(fs: Server, f: nat, off: nat, buf: seq<Byte>, pos: nat, ghost s: State, ghost i: nat)
    returns (r: Ret, pos': nat)
    requires fs.Ready() && f < |fs.files| && Shape(s) && f < |s.files|
    requires Writing(s, fs.S(), f, off, buf, pos, i) && pos < off + |buf|
    modifies fs, fs.bitmap
    ensures |fs.blocks| == |s.blocks| && |fs.files| == |s.files| && r != NotFound && pos < pos'
    ensures r == NoDisk ==> !Own(fs.S()) && |s.free| < TransferNeed(s, f, off, |buf|)
    ensures r == Inval ==> fs.S() == old(fs.S()) && i >= Limit(s)
    ensures r == Ok ==> Writing(s, fs.S(), f, off, buf, pos', i + 1)
  {
    ghost var t := fs.S();
    var bn := Min(BLKSIZE - pos % BLKSIZE, off + |buf| - pos);
    pos' := pos + bn;
    ghost var u;
    r, u := WriteStep(fs, f, off, buf, pos, bn, s, i);
    if r == Ok { WriteAdvance(s, t, u, fs.S(), f, off, buf, pos, i, bn, pos'); }
  }

  /** The loop of file_write. */
  method WriteLoop(fs: Server, f: nat, off: nat, buf: seq<Byte>, ghost s: State)
    returns (r: Ret, pos: nat, ghost i: nat)
    requires fs.Ready() && f < |fs.files| && s == fs.S()
    modifies fs, fs.bitmap
    ensures |fs.blocks| == |s.blocks| && |fs.files| == |s.files| && r != NotFound
    ensures r == NoDisk ==> !Own(fs.S()) && |s.free| < TransferNeed(s, f, off, |buf|)
    ensures r != NoDisk ==> Writing(s, fs.S(), f, off, buf, pos, i)
    ensures r == Inval ==> pos < off + |buf| && i >= Limit(s)
    ensures r == Ok ==> pos == off + |buf|
  {
    r, pos, i := Ok, off, off / BLKSIZE;
    WritingStart(s, f, off, buf);
    while pos < off + |buf|
      invariant r == Ok && Writing(s, fs.S(), f, off, buf, pos, i)
    {
      var pos';
      r, pos' := WriteTurn(fs, f, off, buf, pos, s, i);
      if r != Ok { return; }
      pos, i := pos', i + 1;
    }
  }

  /** The first step of file_write: extends the file if necessary. */
  method Extend(fs: Server, f: nat, off: nat, count: nat)
    requires fs.Ready() && f < |fs.files|
    modifies fs, fs.bitmap
    ensures fs.Ready() && |fs.blocks| == |old(fs.blocks)| && |fs.files| == |old(fs.files)|
    ensures forall k: Holder ::
      Kept(old(fs.S()), fs.S(), k) && (Valid(old(fs.S()), k) ==> Held(fs.S(), k) == Held(old(fs.S()), k))
    ensures forall g :: 0 <= g < |fs.files| ==>
      fs.files[g].size == if g == f then Max(old(fs.files)[f].size, off + count) else old(fs.files)[g].size
    ensures fs.S().free == old(fs.S()).free
    ensures TransferNeed(fs.S(), f, off, count) == TransferNeed(old(fs.S()), f, off, count)
  {
    ghost var s := fs.S();
    if off + count > fs.files[f].size {
      fs.SetSize(f, off + count);
      GrownSame(s, fs.S(), f, off + count, off, count);
    }
  }

  /** file_write. A successful write sets exactly its bytes; every other byte of every file stays. */
  method Write(fs: Server, f: nat, buf: seq<Byte>, off: nat) returns (r: Ret)
    requires fs.Ready() && f < |fs.files|
    modifies fs, fs.bitmap
    ensures |fs.blocks| == |old(fs.blocks)| && |fs.files| == |old(fs.files)|
    ensures WriteEffect(old(fs.S()), f, off, buf, r, fs.S())
  {
    ghost var s := fs.S();
    Extend(fs, f, off, |buf|);
    ghost var t := fs.S();
    var pos;
    ghost var i;
    r, pos, i := WriteLoop(fs, f, off, buf, t);
    if r != NoDisk {
      TransferEnds(t, fs.S(), f, off, pos, off + |buf|, i, r);
      WriteDone(s, t, fs.S(), f, off, buf, pos, i);
    }
  }

  /** What is written to one file is read back from it after a write to another, exactly when both
      ranges are within the largest block index and there are blocks for both. */
  method WriteWriteRead(fs: Server, f: nat, buf: seq<Byte>, off: nat, g: nat, other: seq<Byte>, at: nat)
    returns (r: Ret, data: seq<Byte>, ghost t: State, ghost u: State)
    requires fs.Ready() && f < |fs.files| && g < |fs.files| && f != g
    modifies fs, fs.bitmap
    ensures r == Ok ==>
      WriteEffect(old(fs.S()), f, off, buf, r, t) && g < |t.files| && WriteEffect(t, g, at, other, r, u)
    ensures r == Ok ==>
      f < |u.files| && ReadEffect(u, f, off, Min(|buf|, Left(u.files[f].size, off)), r, data, fs.S()) && data == buf
    ensures r == Ok <==> BothFit(old(fs.S()), f, off, |buf|, g, at, |other|)
  {
    data := [];
    ghost var s := fs.S();
    r := Write(fs, f, buf, off);
    t, u := fs.S(), fs.S();
    if r != Ok { return; }
    OtherNeedSame(s, t, f, off, buf, g, at, |other|);
    r := Write(fs, g, other, at);
    u := fs.S();
    if r != Ok { return; }
    StillStored(t, u, f, off, buf, g, at, other);
    r, data := Read(fs, f, |buf|, off);
    StoredRead(u, f, off, buf, r, data, fs.S());
  }

  method Perform(fs: Server, op: Op) returns (a: Reply)
    requires fs.Ready() && op.f < |fs.files|
    modifies fs, fs.bitmap
    ensures |fs.blocks| == |old(fs.blocks)| && |fs.files| == |old(fs.files)|
    ensures Performed(old(fs.S()), op, a, fs.S())
  {
    match op {
      case WriteOp(f, buf, off) =>
        var r := Write(fs, f, buf, off);
        a := Reply(r, []);
      case ReadOp(f, count, off) =>
        var r, data := Read(fs, f, count, off);
        a := Reply(r, data);
      case ResizeOp(f, size) =>
        fs.SetSize(f, size);
        a := Reply(Ok, []);
      case FetchOp(f, i) =>
        var r, b := fs.GetBlock(f, i);
        a := Reply(r, []);
    }
  }

  /** Any run of writes, reads, resizes and fetches, wherever the fetches are, up to the first
      allocation that fails.  Every state before the last is owned; the last is not exactly when its
      operation, the last of rs, is the one that failed for space. */
  method RunOps(fs: Server, ops: seq<Op>) returns (ok: bool, rs: seq<Reply>, ghost tr: seq<State>)
    requires fs.Ready() && forall i :: 0 <= i < |ops| ==> ops[i].f < |fs.files|
    modifies fs, fs.bitmap
    ensures IsRun(old(fs.S()), ops, rs, tr) && tr[|rs|] == fs.S()
    ensures forall i :: 0 <= i < |rs| ==> Own(tr[i])
    ensures ok <==> Own(fs.S())
    ensures ok ==> |rs| == |ops| && forall i :: 0 <= i < |rs| ==> rs[i].r != NoDisk
    ensures !ok ==> |rs| > 0 && rs[|rs| - 1].r == NoDisk && forall i :: 0 <= i < |rs| - 1 ==> rs[i].r != NoDisk
  {
    ghost var s0 := fs.S();
    ok, rs, tr := true, [], [s0];
    while |rs| < |ops|
      invariant ok && fs.Ready() && |fs.files| == |s0.files|
      invariant IsRun(s0, ops, rs, tr) && tr[|rs|] == fs.S()
      invariant forall i :: 0 <= i <= |rs| ==> Own(tr[i])
      invariant forall i :: 0 <= i < |rs| ==> rs[i].r != NoDisk
      decreases |ops| - |rs|
    {
      ghost var s := fs.S();
      var op := ops[|rs|];
      var a := Perform(fs, op);
      ghost var s' := fs.S();
      StepOwn(s, op, a, s');
      RunMore(s0, ops, rs, tr, a, s');
      rs, tr := rs + [a], tr + [s'];
      if a.r == NoDisk { return false, rs, tr; }
    }
  }
}
