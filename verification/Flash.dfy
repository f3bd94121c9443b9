/** The NOR flash driver's chunking and sector addressing; programming a word is an overwrite. */
module Flash {

  type Word = x: int | 0 <= x < 0x1_0000_0000

  const CAPACITY: nat := 0x200_0000         // bytes
  const CAPWORDS: nat := 0x80_0000
  const PAGEWORDS: nat := 1024              // words one buffer write may program
  const ERASEWORDS: nat := 0x1_0000
  const SECTSIZE: nat := 512
  const SECTWORDS: nat := 128
  const FSOFFSET: nat := 0x80_0000          // FS_NOR_OFFSET, bytes
  const BLKWORDS: nat := 1024
  const CAPBLOCKS: nat := 6144              // blocks that fit between FS_NOR_OFFSET and the end

  /** A buffer-write command: the erase block addressed, the first word and how many follow. */
  datatype Chunk = Chunk(blk: nat, start: nat, count: nat)

  /** The device accepts the chunk: it is not empty and stays inside one flash page. */
  predicate Accepted(c: Chunk) {
    && 1 <= c.count <= PAGEWORDS && c.start / PAGEWORDS == (c.start + c.count - 1) / PAGEWORDS
    && c.blk <= c.start && c.start + c.count <= c.blk + ERASEWORDS && c.blk % ERASEWORDS == 0
  }

  /** The chunks tile the words from lo to hi in order. */
  predicate Tiles(cs: seq<Chunk>, lo: nat, hi: nat) {
    if cs == [] then lo == hi
    else var c := cs[|cs| - 1]; c.start + c.count == hi && lo <= c.start && Tiles(cs[..|cs| - 1], lo, c.start)
  }

  /** Words from at on are those of buf; the others are as in before. */
  ghost predicate Over(after: seq<Word>, before: seq<Word>, at: nat, buf: seq<Word>) {
    && |after| == |before| && at + |buf| <= |before|
    && forall k :: 0 <= k < |before| ==> after[k] == if at <= k < at + |buf| then buf[k - at] else before[k]
  }

  /** A run of words that ends at a page boundary or short of one is a chunk the device takes. */
  lemma ChunkAccepted(at: nat, count: nat)
    requires 1 <= count <= PAGEWORDS - at % PAGEWORDS
    ensures Accepted(Chunk(at - at % ERASEWORDS, at, count))
  {
    var p, o := at / PAGEWORDS, at % PAGEWORDS;
    assert at == p * PAGEWORDS + o;
    assert (at + count - 1) / PAGEWORDS == p;
    var e, r := at / ERASEWORDS, at % ERASEWORDS;
    assert at == e * ERASEWORDS + r;
    assert r / PAGEWORDS < 64 && r % PAGEWORDS == o;
  }

  /** The word loop of one buffer write. */
  method Program(p: array<Word>, at: nat, words: seq<Word>)
    requires at + |words| <= p.Length
    modifies p
    ensures Over(p[..], old(p[..]), at, words)
  {
    for i := 0 to |words|
      invariant Over(p[..], old(p[..]), at, words[..i])
    {
      p[at + i] := words[i];
    }
  }

  lemma OverMore(a: seq<Word>, b: seq<Word>, c: seq<Word>, lo: nat, buf: seq<Word>, i: nat, n: nat)
    requires i + n <= |buf| && Over(b, a, lo, buf[..i]) && Over(c, b, lo + i, buf[i..i + n])
    ensures Over(c, a, lo, buf[..i + n])
  {}

  /** The next chunk ends at the end of the flash page at hand, or takes all that is left. */
  predicate Sized(at: nat, words: nat, count: nat) {
    words > 0 ==>
      && 1 <= count <= words && count <= PAGEWORDS - at % PAGEWORDS
      && (count < words ==> at % PAGEWORDS + count == PAGEWORDS)
  }

  lemma NextSized(at: nat, words: nat, count: nat)
    requires Sized(at, words, count) && count <= words
    ensures Sized(at + count, words - count, if words - count >= PAGEWORDS then PAGEWORDS else words - count)
  {}

  /** CfiFlashWriteBuf. Programs exactly the buffer's words, in chunks the device accepts. */
  method WriteBuf(p: array<Word>, wordOffset: nat, buffer: seq<Word>) returns (chunks: seq<Chunk>)
    requires wordOffset + |buffer| <= p.Length
    modifies p
    ensures Over(p[..], old(p[..]), wordOffset, buffer)
    ensures forall c :: c in chunks ==> Accepted(c)
    ensures Tiles(chunks, wordOffset, wordOffset + |buffer|)
  {
    chunks := [];
    var words: nat, done: nat := |buffer|, 0;
    var first: nat := PAGEWORDS - wordOffset % PAGEWORDS;
    var count: nat := if first > words then words else first;
    while words != 0
      invariant done + words == |buffer|
      invariant Sized(wordOffset + done, words, count)
      invariant Over(p[..], old(p[..]), wordOffset, buffer[..done])
      invariant (forall c :: c in chunks ==> Accepted(c)) && Tiles(chunks, wordOffset, wordOffset + done)
      decreases words
    {
      var at: nat := wordOffset + done;
      ChunkAccepted(at, count);
      NextSized(at, words, count);
      var c := Chunk(at - at % ERASEWORDS, at, count);
      ghost var was := p[..];
      Program(p, at, buffer[done..done + count]);
      OverMore(old(p[..]), was, p[..], wordOffset, buffer, done, count);
      assert (chunks + [c])[..|chunks|] == chunks;
      chunks := chunks + [c];
      done, words := done + count, words - count;
      count := if words >= PAGEWORDS then PAGEWORDS else words;
    }
    assert buffer[..done] == buffer;
  }

  datatype Status = OK | ERROR

  /** CfiFlashWrite; offsets and sums are 32-bit. */
  method Write(p: array<Word>, buffer: seq<Word>, offset: nat) returns (r: Status)
    requires p.Length == CAPWORDS && offset % 4 == 0 && offset + 4 * |buffer| < 0x1_0000_0000
    modifies p
    ensures r == ERROR <==> offset + 4 * |buffer| > CAPACITY
    ensures r == OK ==> Over(p[..], old(p[..]), offset / 4, buffer)
    ensures r == ERROR ==> p[..] == old(p[..])
  {
    if offset + 4 * |buffer| > CAPACITY { return ERROR; }
    var chunks := WriteBuf(p, offset / 4, buffer);
    return OK;
  }

  /** CfiFlashRead into the front of buffer. */
  method Read(p: array<Word>, buffer: array<Word>, to: nat, offset: nat, nbytes: nat) returns (r: Status)
    requires p.Length == CAPWORDS && p != buffer && to + nbytes / 4 <= buffer.Length
    requires offset % 4 == 0 && nbytes % 4 == 0 && offset + nbytes < 0x1_0000_0000
    modifies buffer
    ensures r == ERROR <==> offset + nbytes > CAPACITY
    ensures r == OK ==> Over(buffer[..], old(buffer[..]), to, p[offset / 4..(offset + nbytes) / 4])
    ensures r == ERROR ==> buffer[..] == old(buffer[..])
  {
    if offset + nbytes > CAPACITY { return ERROR; }
    var at, words := offset / 4, nbytes / 4;
    for i := 0 to words
      invariant Over(buffer[..], old(buffer[..]), to, p[at..at + i])
    {
      buffer[to + i] := p[at + i];
    }
    return OK;
  }

  /** Where block b starts in the flash, in words. */
  function Base(b: nat): nat { FSOFFSET / 4 + b * BLKWORDS }

  /** What the flash holds for block b; a block past its end reads as a fresh page. */
  function OnFlash(flash: seq<Word>, b: nat): seq<Word>
    requires |flash| == CAPWORDS
  {
    if b < CAPBLOCKS then flash[Base(b)..Base(b) + BLKWORDS] else seq(BLKWORDS, _ => 0)
  }

  /** cfi_flash_write of the eight sectors of a block. The sector writes report nothing: a block past
      the end of the flash is dropped in silence. */
  method WriteSectors(p: array<Word>, b: nat, src: seq<Word>)
    requires p.Length == CAPWORDS && b < 0xC_0000 && |src| == BLKWORDS
    modifies p
    ensures b < CAPBLOCKS ==> Over(p[..], old(p[..]), Base(b), src)
    ensures b >= CAPBLOCKS ==> p[..] == old(p[..])
  {
    for i := 0 to 8
      invariant b < CAPBLOCKS ==> Over(p[..], old(p[..]), Base(b), src[..i * SECTWORDS])
      invariant b >= CAPBLOCKS ==> p[..] == old(p[..])
    {
      ghost var was := p[..];
      SectorWords(b, i);
      var r := Write(p, src[i * SECTWORDS..(i + 1) * SECTWORDS], FSOFFSET + (8 * b + i) * SECTSIZE);
      if b < CAPBLOCKS { OverMore(old(p[..]), was, p[..], Base(b), src, i * SECTWORDS, SECTWORDS); }
    }
    assert src[..8 * SECTWORDS] == src;
  }

  /** Sector i of block b, as a byte offset and as words. */
  lemma SectorWords(b: nat, i: nat)
    ensures var offset := FSOFFSET + (8 * b + i) * SECTSIZE;
            && offset % 4 == 0 && offset / 4 == Base(b) + i * SECTWORDS
            && (offset + SECTSIZE) / 4 == Base(b) + i * SECTWORDS + SECTWORDS
  {
    assert FSOFFSET + (8 * b + i) * SECTSIZE == 4 * (Base(b) + i * SECTWORDS);
  }

  lemma SectorSlice(flash: seq<Word>, b: nat, i: nat)
    requires |flash| == CAPWORDS && b < CAPBLOCKS && i < 8
    ensures var at := Base(b) + i * SECTWORDS;
            && at + SECTWORDS <= |flash|
            && flash[at..at + SECTWORDS] == OnFlash(flash, b)[i * SECTWORDS..i * SECTWORDS + SECTWORDS]
  {}

  /** One sector of cfi_flash_read. */
  method ReadSector(p: array<Word>, b: nat, i: nat, dst: array<Word>)
    requires p.Length == CAPWORDS && p != dst && dst.Length == BLKWORDS && b < 0xC_0000 && i < 8
    modifies dst
    ensures b < CAPBLOCKS ==>
      Over(dst[..], old(dst[..]), i * SECTWORDS, OnFlash(p[..], b)[i * SECTWORDS..i * SECTWORDS + SECTWORDS])
    ensures b >= CAPBLOCKS ==> dst[..] == old(dst[..])
  {
    var offset := FSOFFSET + (8 * b + i) * SECTSIZE;
    SectorWords(b, i);
    if b < CAPBLOCKS {
      SectorSlice(p[..], b, i);
      assert p[offset / 4..(offset + SECTSIZE) / 4] == p[..][offset / 4..(offset + SECTSIZE) / 4];
    }
    var r := Read(p, dst, i * SECTWORDS, offset, SECTSIZE);
  }

  /** cfi_flash_read of the eight sectors of a block into a page. */
  method ReadSectors(p: array<Word>, b: nat, dst: array<Word>)
    requires p.Length == CAPWORDS && p != dst && dst.Length == BLKWORDS && b < 0xC_0000
    modifies dst
    ensures b < CAPBLOCKS ==> dst[..] == OnFlash(p[..], b)
    ensures b >= CAPBLOCKS ==> dst[..] == old(dst[..])
  {
    ghost var blk := OnFlash(p[..], b);
    for i := 0 to 8
      invariant b < CAPBLOCKS ==> Over(dst[..], old(dst[..]), 0, blk[..i * SECTWORDS])
      invariant b >= CAPBLOCKS ==> dst[..] == old(dst[..])
    {
      ghost var was := dst[..];
      ReadSector(p, b, i, dst);
      if b < CAPBLOCKS { OverMore(old(dst[..]), was, dst[..], 0, blk, i * SECTWORDS, SECTWORDS); }
    }
    assert blk[..8 * SECTWORDS] == blk;
  }
}
