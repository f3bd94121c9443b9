/** File records, the super block and the bitmap as the disk stores them, in little-endian words. */
module Records {
  import opened Blocks
  import opened Disk
  import Bitmap

  const MAXWORD: nat := 0x1_0000_0000
  const RECWORDS: nat := 64             // sizeof(struct File) / 4
  const BLKFILES: nat := 16
  const FS_MAGIC: nat := 0x4A05_30AE

  predicate Small(ws: seq<nat>) { forall i :: 0 <= i < |ws| ==> ws[i] < MAXWORD }

  /** The first k words, in an otherwise clear block. */
  function Prefix(ws: seq<nat>, k: nat): Block
    requires k <= |ws| <= NINDIRECT && Small(ws)
  {
    if k == 0 then Zero() else Store(Prefix(ws, k - 1), k - 1, ws[k - 1])
  }

  function FromWords(ws: seq<nat>): Block
    requires |ws| <= NINDIRECT && Small(ws)
  {
    Prefix(ws, |ws|)
  }

  lemma {:induction false} PrefixLoad(ws: seq<nat>, k: nat, j: nat)
    requires k <= |ws| <= NINDIRECT && Small(ws) && j < NINDIRECT
    ensures Load(Prefix(ws, k), j) == if j < k then ws[j] else 0
    decreases k
  {
    if k == 0 {
      LoadZero(j);
    } else {
      PrefixLoad(ws, k - 1, j);
      LoadStore(Prefix(ws, k - 1), k - 1, ws[k - 1], j);
    }
  }

  /* ---- struct File ---- */

  /** The fields fit their words. */
  predicate Encodable(r: File) {
    && r.size < MAXWORD && |r.direct| == NDIRECT && r.indirect < MAXWORD
    && forall i :: 0 <= i < NDIRECT ==> r.direct[i] < MAXWORD
  }

  /** Word i of a record in use: a name, f_size, f_direct and f_indirect. */
  function RecordWord(r: File, i: nat): nat
    requires |r.direct| == NDIRECT
  {
    if i == 0 then 1
    else if i == 32 then r.size
    else if 34 <= i < 44 then r.direct[i - 34]
    else if i == 44 then r.indirect
    else 0
  }

  /** The record at word o of a block. */
  function LoadRecord(b: Block, o: nat): File
    requires o + RECWORDS <= NINDIRECT
  {
    File(Load(b, o + 32), seq<nat>(NDIRECT, i requires 0 <= i < NDIRECT => Load(b, o + 34 + i)),
         Load(b, o + 44))
  }

  ghost predicate HasRecord(b: Block, o: nat, r: File)
    requires o + RECWORDS <= NINDIRECT && |r.direct| == NDIRECT
  {
    forall i :: 0 <= i < RECWORDS ==> Load(b, o + i) == RecordWord(r, i)
  }

  /** A stored record reads back. */
  lemma RecordRead(b: Block, o: nat, r: File)
    requires o + RECWORDS <= NINDIRECT && |r.direct| == NDIRECT && HasRecord(b, o, r)
    ensures LoadRecord(b, o) == r && Load(b, o) != 0
  {
    assert Load(b, o + 0) == RecordWord(r, 0);
    assert Load(b, o + 32) == RecordWord(r, 32) && Load(b, o + 44) == RecordWord(r, 44);
    forall i | 0 <= i < NDIRECT ensures Load(b, o + 34 + i) == r.direct[i] {
      assert Load(b, o + (34 + i)) == RecordWord(r, 34 + i);
    }
    assert LoadRecord(b, o).direct == r.direct;
  }

  /* ---- directory, super block and bitmap ---- */

  predicate AllEncodable(files: seq<File>) { forall j :: 0 <= j < |files| ==> Encodable(files[j]) }

  /** Block k of the directory of these records. */
  function DirWords(files: seq<File>, k: nat): (ws: seq<nat>)
    requires AllEncodable(files)
    ensures |ws| == NINDIRECT && Small(ws)
  {
    seq(NINDIRECT, i requires 0 <= i < NINDIRECT =>
      var j := BLKFILES * k + i / RECWORDS; if j < |files| then RecordWord(files[j], i % RECWORDS) else 0)
  }

  lemma SlotWord(slot: nat, i: nat)
    requires i < RECWORDS
    ensures (slot * RECWORDS + i) / RECWORDS == slot && (slot * RECWORDS + i) % RECWORDS == i
  {}

  lemma DirWord(files: seq<File>, k: nat, slot: nat, i: nat)
    requires AllEncodable(files) && slot < BLKFILES && i < RECWORDS
    ensures var j := BLKFILES * k + slot;
            Load(FromWords(DirWords(files, k)), slot * RECWORDS + i) ==
              if j < |files| then RecordWord(files[j], i) else 0
  {
    PrefixLoad(DirWords(files, k), NINDIRECT, slot * RECWORDS + i);
    SlotWord(slot, i);
  }

  /** Record j of a directory reads back, and the slots after the last are not in use. */
  lemma DirRecord(files: seq<File>, k: nat, slot: nat)
    requires AllEncodable(files) && slot < BLKFILES
    ensures var b, o, j := FromWords(DirWords(files, k)), slot * RECWORDS, BLKFILES * k + slot;
            if j < |files| then LoadRecord(b, o) == files[j] && Load(b, o) != 0 else Load(b, o) == 0
  {
    var j := BLKFILES * k + slot;
    if j < |files| {
      forall i | 0 <= i < RECWORDS
        ensures Load(FromWords(DirWords(files, k)), slot * RECWORDS + i) == RecordWord(files[j], i)
      {
        DirWord(files, k, slot, i);
      }
      RecordRead(FromWords(DirWords(files, k)), slot * RECWORDS, files[j]);
    } else {
      DirWord(files, k, slot, 0);
    }
  }

  /** struct Super: the magic number, the number of blocks and the root's record. */
  function SuperWords(n: nat, root: File): (ws: seq<nat>)
    requires n < MAXWORD && Encodable(root)
    ensures |ws| == NINDIRECT && Small(ws)
  {
    seq(NINDIRECT, i requires 0 <= i < NINDIRECT =>
      if i == 0 then FS_MAGIC else if i == 1 then n else if i < 2 + RECWORDS then RecordWord(root, i - 2) else 0)
  }

  lemma SuperRecord(n: nat, root: File)
    requires n < MAXWORD && Encodable(root)
    ensures Load(FromWords(SuperWords(n, root)), 1) == n && LoadRecord(FromWords(SuperWords(n, root)), 2) == root
  {
    var ws := SuperWords(n, root);
    PrefixLoad(ws, NINDIRECT, 1);
    forall i | 0 <= i < RECWORDS ensures Load(FromWords(ws), 2 + i) == RecordWord(root, i) {
      PrefixLoad(ws, NINDIRECT, 2 + i);
    }
    RecordRead(FromWords(ws), 2, root);
  }

  /** A bitmap word as a number, and back. */
  function Value(bits: seq<bool>): nat { if |bits| == 0 then 0 else 2 * Value(bits[1..]) + (if bits[0] then 1 else 0) }

  function Bits(v: nat, n: nat): (bits: seq<bool>)
    ensures |bits| == n
  {
    if n == 0 then [] else [v % 2 == 1] + Bits(v / 2, n - 1)
  }

  lemma {:induction false} BitsOfValue(bits: seq<bool>)
    ensures Bits(Value(bits), |bits|) == bits
  {
    if |bits| > 0 { BitsOfValue(bits[1..]); }
  }

  function Pow2(k: nat): nat { if k == 0 then 1 else 2 * Pow2(k - 1) }

  lemma {:induction false} ValueBound(bits: seq<bool>)
    ensures Value(bits) < Pow2(|bits|)
  {
    if |bits| > 0 { ValueBound(bits[1..]); }
  }

  lemma WordBound(w: Bitmap.Word)
    ensures Value(w) < MAXWORD
  {
    ValueBound(w);
    assert Pow2(5) == 32;
    assert Pow2(8) == 256;
    assert Pow2(12) == 4096;
    assert Pow2(16) == 0x1_0000;
    assert Pow2(20) == 0x10_0000;
    assert Pow2(24) == 0x100_0000;
    assert Pow2(28) == 0x1000_0000;
    assert Pow2(32) == MAXWORD;
  }

  function BitmapWords(words: seq<Bitmap.Word>): (ws: seq<nat>)
    ensures |ws| == NINDIRECT && Small(ws)
  {
    var ws := seq(NINDIRECT, i requires 0 <= i < NINDIRECT => if i < |words| then Value(words[i]) else 0);
    assert Small(ws) by {
      forall i | 0 <= i < |ws| ensures ws[i] < MAXWORD { if i < |words| { WordBound(words[i]); } }
    }
    ws
  }

  lemma BitmapRead(words: seq<Bitmap.Word>, i: nat)
    requires i < |words| && i < NINDIRECT
    ensures Bits(Load(FromWords(BitmapWords(words)), i), 32) == words[i]
  {
    PrefixLoad(BitmapWords(words), NINDIRECT, i);
    BitsOfValue(words[i]);
  }
}
