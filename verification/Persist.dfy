/** What the server has written survives fs_sync and a restart: the file layer over the block cache.

    The disk image holds the root's record in the super block, the bitmap in block 2 and the other
    records in the root's directory blocks, so that a restart has nothing but the flash to go by. */
module Persist {
  import opened Blocks
  import opened Disk
  import opened FileSystem
  import opened Options
  import opened Transfer
  import FileIo
  import opened Records
  import Bitmap
  import Flash
  import BlockCache

  /** The words are the block, read as the flash stores it. */
  ghost predicate Shows(words: seq<Flash.Word>, b: Block) {
    |words| == NINDIRECT && forall k :: 0 <= k < NINDIRECT ==> words[k] == Load(b, k)
  }

  lemma Split256(q: nat, r: nat)
    requires r < 0x100
    ensures (0x100 * q + r) / 0x100 == q && (0x100 * q + r) % 0x100 == r
  {}

  lemma LoadBytes(b: Block, k: nat)
    requires k < NINDIRECT
    ensures var w := Load(b, k);
            && b[4 * k] == w % 0x100 && b[4 * k + 1] == w / 0x100 % 0x100
            && b[4 * k + 2] == w / 0x100 / 0x100 % 0x100 && b[4 * k + 3] == w / 0x100 / 0x100 / 0x100
  {
    var b0: nat, b1: nat, b2: nat, b3: nat := b[4 * k], b[4 * k + 1], b[4 * k + 2], b[4 * k + 3];
    Split256(b1 + 0x100 * b2 + 0x1_0000 * b3, b0);
    Split256(b2 + 0x100 * b3, b1);
    Split256(b3, b2);
  }

  /** Words determine the block. */
  lemma ShowsOne(words: seq<Flash.Word>, b: Block, c: Block)
    requires Shows(words, b) && Shows(words, c)
    ensures b == c
  {
    forall j | 0 <= j < BLKSIZE ensures b[j] == c[j] {
      var k := j / 4;
      LoadBytes(b, k);
      LoadBytes(c, k);
      assert words[k] == Load(b, k) && words[k] == Load(c, k);
      assert j == 4 * k || j == 4 * k + 1 || j == 4 * k + 2 || j == 4 * k + 3;
    }
  }

  /** Every block past the boot block is as the cache gives it. */
  ghost predicate Holds(blocks: seq<Block>, c: BlockCache.State) {
    BlockCache.Shape(c) && forall b :: 1 <= b < |blocks| ==> Shows(BlockCache.View(c, b), blocks[b])
  }

  /* ---- the disk image ---- */

  /** The last record is the root's; its direct blocks have room for all the others. */
  ghost predicate HasRoot(s: State) {
    && Own(s) && 3 <= |s.blocks| <= Flash.CAPBLOCKS && 0 < |s.files| <= BLKFILES * NDIRECT
    && (forall j :: 0 <= j < |s.files| - 1 ==> Root(s).direct[j / BLKFILES] != 0)
    && (forall f :: 0 <= f < |s.files| ==> s.files[f].size < MAXWORD)
  }

  function Root(s: State): File
    requires |s.files| > 0
  {
    s.files[|s.files| - 1]
  }

  /** b is a directory block. */
  predicate InDir(root: File, b: nat) { exists k :: 0 <= k < |root.direct| && root.direct[k] == b }

  /** The image: super block, bitmap, directory, and every other block as it is. */
  ghost predicate LaidOut(s: State, words: seq<Bitmap.Word>, blocks: seq<Block>)
    requires HasRoot(s)
  {
    AllFit(s);
    var r := |s.files| - 1;
    && |blocks| == |s.blocks|
    && blocks[1] == FromWords(SuperWords(|blocks|, Root(s))) && blocks[2] == FromWords(BitmapWords(words))
    && (forall k :: 0 <= k < NDIRECT && Root(s).direct[k] != 0 ==>
          DirBlock(s, k) < |blocks| && blocks[DirBlock(s, k)] == FromWords(DirWords(s.files[..r], k)))
    && (forall b :: 3 <= b < |blocks| && !InDir(Root(s), b) ==> blocks[b] == s.blocks[b])
  }

  function DirBlock(s: State, k: nat): nat
    requires |s.files| > 0 && k < |Root(s).direct|
  {
    Root(s).direct[k]
  }

  /** Every record fits its words. */
  lemma AllFit(s: State)
    requires HasRoot(s)
    ensures AllEncodable(s.files) && AllEncodable(s.files[..|s.files| - 1]) && Encodable(Root(s))
  {
    forall f | 0 <= f < |s.files| ensures Encodable(s.files[f]) {
      assert InUse(s, Ind(f));
      forall i | 0 <= i < NDIRECT ensures s.files[f].direct[i] < MAXWORD { assert InUse(s, Data(f, i)); }
    }
  }

  /** Directory blocks are past the bitmap and all different. */
  lemma DirBlocks(s: State, k: nat, l: nat)
    requires HasRoot(s) && k < NDIRECT && l < NDIRECT && Root(s).direct[k] != 0
    ensures 3 <= DirBlock(s, k) < |s.blocks| && (k != l ==> DirBlock(s, l) != DirBlock(s, k))
  {
    var r := |s.files| - 1;
    assert InUse(s, Data(r, k)) && Distinct(s, Data(r, k), Data(r, l));
  }

  method Layout(fs: Server, ghost s: State) returns (blocks: seq<Block>)
    requires s == fs.S() && HasRoot(s)
    ensures LaidOut(s, fs.bitmap[..], blocks)
  {
    AllFit(s);
    var r := |fs.files| - 1;
    var root := fs.files[r];
    blocks := fs.blocks[1 := FromWords(SuperWords(|fs.blocks|, root))][2 := FromWords(BitmapWords(fs.bitmap[..]))];
    var k := 0;
    while k < NDIRECT
      invariant 0 <= k <= NDIRECT && |blocks| == |s.blocks|
      invariant blocks[1] == FromWords(SuperWords(|s.blocks|, root))
      invariant blocks[2] == FromWords(BitmapWords(fs.bitmap[..]))
      invariant forall l :: 0 <= l < k && root.direct[l] != 0 ==>
                  DirBlock(s, l) < |blocks| && blocks[DirBlock(s, l)] == FromWords(DirWords(s.files[..r], l))
      invariant forall b :: 3 <= b < |blocks| && !InDir(root, b) ==> blocks[b] == s.blocks[b]
    {
      if root.direct[k] != 0 {
        forall l | 0 <= l < NDIRECT { DirBlocks(s, k, l); }
        DirBlocks(s, k, k);
        blocks := blocks[root.direct[k] := FromWords(DirWords(fs.files[..r], k))];
      }
      k := k + 1;
    }
  }

  /* ---- reading it back ---- */

  lemma BitmapBack(s: State, words: seq<Bitmap.Word>, words': seq<Bitmap.Word>, n: nat)
    requires n <= Flash.CAPBLOCKS && n <= 32 * |words| && |words'| == NINDIRECT
    requires forall i :: 0 <= i < NINDIRECT ==> words'[i] == Bits(Load(FromWords(BitmapWords(words)), i), 32)
    ensures Bitmap.FreeSet(words', n) == Bitmap.FreeSet(words, n)
  {
    forall b: nat | b < n ensures Bitmap.Marked(words', b) <==> Bitmap.Marked(words, b) { BitmapRead(words, b / 32); }
  }

  /** The records of the directory, up to the first slot that is not in use. */
  method ReadDir(blocks: seq<Block>, root: File, ghost s: State, ghost words: seq<Bitmap.Word>)
    returns (files: seq<File>)
    requires HasRoot(s) && LaidOut(s, words, blocks) && root == Root(s)
    ensures files == s.files[..|s.files| - 1]
  {
    files := [];
    ghost var m := |s.files| - 1;
    while |files| < BLKFILES * NDIRECT
      invariant |files| <= m && files == s.files[..|files|]
      decreases m - |files|
    {
      var j := |files|;
      var b := root.direct[j / BLKFILES];
      if b == 0 { break; }
      DirEntry(s, words, blocks, j);
      if Load(blocks[b], j % BLKFILES * RECWORDS) == 0 { break; }
      files := files + [LoadRecord(blocks[b], j % BLKFILES * RECWORDS)];
    }
  }

  lemma DirEntry(s: State, words: seq<Bitmap.Word>, blocks: seq<Block>, j: nat)
    requires HasRoot(s) && LaidOut(s, words, blocks) && j < BLKFILES * NDIRECT && Root(s).direct[j / BLKFILES] != 0
    ensures DirBlock(s, j / BLKFILES) < |blocks|
    ensures var b, o := blocks[DirBlock(s, j / BLKFILES)], j % BLKFILES * RECWORDS;
            if j < |s.files| - 1 then LoadRecord(b, o) == s.files[j] && Load(b, o) != 0 else Load(b, o) == 0
  {
    AllFit(s);
    DirRecord(s.files[..|s.files| - 1], j / BLKFILES, j % BLKFILES);
    assert BLKFILES * (j / BLKFILES) + j % BLKFILES == j;
  }

  /** fs_init, on blocks read from the flash: the super block, the bitmap and the directory. */
  method Decode(blocks: seq<Block>, ghost s: State, ghost words: seq<Bitmap.Word>)
    returns (bitmap: array<Bitmap.Word>, files: seq<File>)
    requires HasRoot(s) && LaidOut(s, words, blocks) && |s.blocks| <= 32 * |words|
    ensures fresh(bitmap) && bitmap.Length == NINDIRECT && files == s.files
    ensures Bitmap.FreeSet(bitmap[..], |blocks|) == Bitmap.FreeSet(words, |blocks|)
  {
    AllFit(s);
    SuperRecord(|blocks|, Root(s));
    var root := LoadRecord(blocks[1], 2);
    files := ReadDir(blocks, root, s, words);
    files := files + [root];
    bitmap := new Bitmap.Word[NINDIRECT](i requires 0 <= i < NINDIRECT => Bits(Load(blocks[2], i), 32));
    BitmapBack(s, words, bitmap[..], |blocks|);
  }

  /** The restarted server's disk: records and free blocks as they were, and every block but the boot
      block, the super block, the bitmap and the directory. */
  ghost predicate SameDisk(s: State, t: State)
    requires |s.files| > 0
  {
    && t.free == s.free && t.files == s.files && |t.blocks| == |s.blocks|
    && forall b :: 3 <= b < |s.blocks| && !InDir(Root(s), b) ==> t.blocks[b] == s.blocks[b]
  }

  lemma NotInDir(s: State, h: Holder)
    requires HasRoot(s) && Valid(s, h) && Held(s, h) != 0 && (h.f != |s.files| - 1 || h.Ind?)
    ensures 3 <= Held(s, h) < |s.blocks| && !InDir(Root(s), Held(s, h))
  {
    var r := |s.files| - 1;
    assert InUse(s, h);
    forall k | 0 <= k < NDIRECT ensures Root(s).direct[k] != Held(s, h) {
      assert Distinct(s, h, Data(r, k)) && Held(s, Data(r, k)) == Root(s).direct[k];
    }
  }

  lemma SameDiskOwn(s: State, t: State)
    requires HasRoot(s) && SameDisk(s, t)
    ensures Own(t) && (forall k: Holder :: Valid(s, k) ==> Held(t, k) == Held(s, k))
  {
    forall k: Holder | Valid(s, k) ensures Held(t, k) == Held(s, k) {
      if Held(s, Ind(k.f)) != 0 { NotInDir(s, Ind(k.f)); }
    }
    forall k: Holder ensures InUse(t, k) { assert InUse(s, k); }
    forall k: Holder, l: Holder ensures Distinct(t, k, l) { assert Distinct(s, k, l); }
  }

  lemma SameDiskStored(s: State, t: State, f: nat, off: nat, buf: seq<Byte>)
    requires HasRoot(s) && SameDisk(s, t) && Own(t) && f < |s.files| - 1 && Transfer.Stored(s, f, off, buf)
    requires forall k: Holder :: Valid(s, k) ==> Held(t, k) == Held(s, k)
    ensures Transfer.Stored(t, f, off, buf)
  {
    forall p: nat | off <= p < off + |buf| ensures At(t, f, p) == Some(buf[p - off]) {
      assert At(s, f, p) == Some(buf[p - off]);
      NotInDir(s, Data(f, p / BLKSIZE));
    }
  }

  /** fs_sync puts the image on the flash: a cache that starts empty gives the same blocks. */
  lemma Restarted(blocks: seq<Block>, blocks': seq<Block>, c: BlockCache.State, n: nat, flash: seq<Flash.Word>)
    requires Holds(blocks, c) && BlockCache.Coherent(c) && |blocks| <= n <= Flash.CAPBLOCKS
    requires flash == BlockCache.Synced(c, n).flash && Holds(blocks', BlockCache.State(flash, map[]))
    requires |blocks'| == |blocks|
    ensures forall b :: 1 <= b < |blocks| ==> blocks'[b] == blocks[b]
  {
    BlockCache.SyncOnFittingDisk(c, n);
    forall b | 1 <= b < |blocks| ensures blocks'[b] == blocks[b] {
      ShowsOne(BlockCache.View(c, b), blocks[b], blocks'[b]);
    }
  }

  /** One block as the cache gives it, page fault and all. */
  method LoadBlock(cache: BlockCache.Cache, b: nat) returns (block: Block)
    requires cache.Ready() && 1 <= b < cache.nblocks
    modifies cache`pages
    ensures cache.Ready() && Shows(BlockCache.View(cache.S(), b), block)
    ensures forall c: nat :: BlockCache.View(cache.S(), c) == BlockCache.View(old(cache.S()), c)
  {
    block := Zero();
    var k := 0;
    while k < NINDIRECT
      invariant 0 <= k <= NINDIRECT && cache.Ready()
      invariant forall c: nat :: BlockCache.View(cache.S(), c) == BlockCache.View(old(cache.S()), c)
      invariant forall j :: 0 <= j < k ==> Load(block, j) == BlockCache.View(cache.S(), b)[j]
    {
      var w := cache.Load(b, k);
      forall j | 0 <= j <= k { LoadStore(block, k, w, j); }
      block := Store(block, k, w);
      k := k + 1;
    }
  }

  /** All the blocks, as the cache gives them. */
  method LoadBlocks(cache: BlockCache.Cache, n: nat) returns (blocks: seq<Block>)
    requires cache.Ready() && 1 <= n <= cache.nblocks
    modifies cache`pages
    ensures cache.Ready() && |blocks| == n && Holds(blocks, old(cache.S()))
  {
    blocks := [Zero()];
    while |blocks| < n
      invariant 1 <= |blocks| <= n && cache.Ready()
      invariant forall c: nat :: BlockCache.View(cache.S(), c) == BlockCache.View(old(cache.S()), c)
      invariant forall b :: 1 <= b < |blocks| ==> Shows(BlockCache.View(old(cache.S()), b), blocks[b])
      decreases n - |blocks|
    {
      var block := LoadBlock(cache, |blocks|);
      blocks := blocks + [block];
    }
  }

  /** The server's stores reach the mapped page of a block, word by word. */
  method UpdateBlock(cache: BlockCache.Cache, b: nat, block: Block)
    requires cache.Ready() && 1 <= b < cache.nblocks
    modifies cache`pages
    ensures cache.Ready() && Shows(BlockCache.View(cache.S(), b), block)
    ensures forall c: nat :: c != b ==> BlockCache.View(cache.S(), c) == BlockCache.View(old(cache.S()), c)
  {
    var k := 0;
    while k < NINDIRECT
      invariant 0 <= k <= NINDIRECT && cache.Ready()
      invariant forall c: nat :: c != b ==> BlockCache.View(cache.S(), c) == BlockCache.View(old(cache.S()), c)
      invariant forall j :: 0 <= j < k ==> Load(block, j) == BlockCache.View(cache.S(), b)[j]
    {
      var w := cache.Load(b, k);
      if w != Load(block, k) { cache.Store(b, k, Load(block, k)); }
      k := k + 1;
    }
  }

  /** The words that changed since the last time are stored through the cache. */
  method Update(blocks: seq<Block>, cache: BlockCache.Cache)
    requires cache.Ready() && |blocks| <= cache.nblocks
    modifies cache`pages
    ensures cache.Ready() && Holds(blocks, cache.S())
  {
    var b := 1;
    while b < |blocks|
      invariant 1 <= b && cache.Ready()
      invariant forall c :: 1 <= c < b && c < |blocks| ==> Shows(BlockCache.View(cache.S(), c), blocks[c])
    {
      UpdateBlock(cache, b, blocks[b]);
      b := b + 1;
    }
  }

  /** fs_sync of the image, and a new cache over the same flash. */
  method Reload(blocks: seq<Block>, cache: BlockCache.Cache) returns (blocks': seq<Block>)
    requires cache.Ready() && 1 <= |blocks| <= cache.nblocks <= Flash.CAPBLOCKS
    modifies cache, cache.flash
    ensures |blocks'| == |blocks| && forall b :: 1 <= b < |blocks| ==> blocks'[b] == blocks[b]
  {
    Update(blocks, cache);
    ghost var c := cache.S();
    cache.Sync();
    var cache' := new BlockCache.Cache(cache.flash, cache.nblocks);
    ghost var c' := cache'.S();
    blocks' := LoadBlocks(cache', |blocks|);
    Restarted(blocks, blocks', c, cache.nblocks, c'.flash);
  }

  lemma ReloadedImage(s: State, words: seq<Bitmap.Word>, blocks: seq<Block>, blocks': seq<Block>)
    requires HasRoot(s) && LaidOut(s, words, blocks) && |blocks'| == |blocks|
    requires forall b :: 1 <= b < |blocks| ==> blocks'[b] == blocks[b]
    ensures LaidOut(s, words, blocks')
  {
    forall k | 0 <= k < NDIRECT && Root(s).direct[k] != 0 ensures 3 <= DirBlock(s, k) { DirBlocks(s, k, k); }
  }

  /** A new server that has only the flash finds the records and the free blocks as they were. */
  method Restart(fs: Server, cache: BlockCache.Cache, ghost s: State) returns (fs': Server)
    requires s == fs.S() && HasRoot(s) && |s.blocks| <= 32 * fs.bitmap.Length
    requires cache.Ready() && |s.blocks| <= cache.nblocks <= Flash.CAPBLOCKS
    modifies cache, cache.flash
    ensures fresh(fs') && fresh(fs'.bitmap) && |s.blocks| <= 32 * fs'.bitmap.Length && SameDisk(s, fs'.S())
  {
    var blocks := Layout(fs, s);
    ghost var words := fs.bitmap[..];
    var blocks' := Reload(blocks, cache);
    ReloadedImage(s, words, blocks, blocks');
    var bitmap, files := Decode(blocks', s, words);
    fs' := new Server(bitmap, blocks', files);
  }

  lemma WriteKeepsRoot(s: State, s': State, f: nat, off: nat, buf: seq<Byte>)
    requires HasRoot(s) && f < |s.files| - 1 && WriteKept(s, s', f, off, buf) && off + |buf| < MAXWORD
    ensures HasRoot(s')
  {
    var r := |s.files| - 1;
    forall k | 0 <= k < NDIRECT ensures Root(s').direct[k] == Root(s).direct[k] {
      assert Held(s', Data(r, k)) == Held(s, Data(r, k));
    }
  }

  /** A write, fs_sync, and a new server that has only the flash: the bytes written are read back,
      exactly when the write fits. */
  method WriteSyncRestartRead(fs: Server, cache: BlockCache.Cache, f: nat, buf: seq<Byte>, off: nat)
    returns (r: Ret, data: seq<Byte>, fs': Server, ghost s: State, ghost t: State)
    requires fs.Ready() && HasRoot(fs.S()) && f < |fs.files| - 1 && off + |buf| < MAXWORD
    requires cache.Ready() && |fs.blocks| <= cache.nblocks <= Flash.CAPBLOCKS
    modifies fs, fs.bitmap, cache, cache.flash
    ensures r == Ok <==>
      !PastLimit(old(fs.S()), off, |buf|) && TransferNeed(old(fs.S()), f, off, |buf|) <= |old(fs.S()).free|
    ensures r == Ok ==> WriteEffect(old(fs.S()), f, off, buf, r, s) && |s.files| > 0 && SameDisk(s, t) && f < |t.files|
    ensures r == Ok ==> Own(t) && ReadEffect(t, f, off, Min(|buf|, Left(t.files[f].size, off)), r, data, fs'.S())
    ensures r == Ok ==> data == buf
  {
    data, fs' := [], fs;
    ghost var s0 := fs.S();
    r := FileIo.Write(fs, f, buf, off);
    s, t := fs.S(), fs.S();
    if r != Ok { return; }
    WriteKeepsRoot(s0, s, f, off, buf);
    fs' := Restart(fs, cache, s);
    t := fs'.S();
    SameDiskOwn(s, t);
    SameDiskStored(s, t, f, off, buf);
    r, data := FileIo.Read(fs', f, |buf|, off);
    StoredRead(t, f, off, buf, r, data, fs'.S());
  }
}
