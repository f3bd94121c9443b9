/** The free-block bitmap: 32 blocks to a word, a bit set when its block is free. */
module Bitmap {

  const E_NO_DISK: int := 9

  /** A bitmap word, as its bits from the lowest up. */
  type Word = w: seq<bool> | |w| == 32 witness seq(32, _ => false)

  /** Block i is marked free. */
  predicate Marked(words: seq<Word>, i: nat) { i / 32 < |words| && words[i / 32][i % 32] }

  /** The free blocks of a disk of n blocks. */
  function FreeSet(words: seq<Word>, n: nat): set<nat> { set i: nat | i < n && Marked(words, i) }

  /** Writing bit b changes whether that block is free, and no other. */
  lemma BitWritten(words: seq<Word>, b: nat, v: bool, i: nat)
    requires b / 32 < |words|
    ensures Marked(words[b / 32 := words[b / 32][b % 32 := v]], i) <==> if i == b then v else Marked(words, i)
  {
    assert i == 32 * (i / 32) + i % 32 && b == 32 * (b / 32) + b % 32;
  }

  /** The blocks no file may use: the boot block, the super block and the bitmap's own blocks. */
  function Reserved(n: nat): nat { 2 + (n + 32767) / 32768 }

  method WriteBit(bitmap: array<Word>, b: nat, v: bool)
    requires b / 32 < bitmap.Length
    modifies bitmap
    ensures forall i: nat :: Marked(bitmap[..], i) <==> if i == b then v else Marked(old(bitmap[..]), i)
  {
    ghost var was := bitmap[..];
    bitmap[b / 32] := bitmap[b / 32][b % 32 := v];
    assert bitmap[..] == was[b / 32 := was[b / 32][b % 32 := v]];
    forall i: nat ensures Marked(bitmap[..], i) <==> if i == b then v else Marked(was, i) { BitWritten(was, b, v, i); }
  }

  method BlockIsFree(bitmap: array<Word>, n: nat, b: nat) returns (r: bool)
    requires n <= 32 * bitmap.Length
    ensures r <==> b in FreeSet(bitmap[..], n)
  {
    if b >= n { return false; }
    r := bitmap[b / 32][b % 32];
  }

  method FreeBlock(bitmap: array<Word>, b: nat, ghost n: nat)
    requires b != 0 && b / 32 < bitmap.Length
    modifies bitmap
    ensures FreeSet(bitmap[..], n) == old(FreeSet(bitmap[..], n)) + (if b < n then {b} else {})
  {
    WriteBit(bitmap, b, true);
  }

  /** Takes the lowest free block; fails, changing nothing, just when there is none. */
  method AllocBlock(bitmap: array<Word>, n: nat) returns (r: int)
    requires n <= 32 * bitmap.Length
    modifies bitmap
    ensures r >= 0 ==> r in old(FreeSet(bitmap[..], n)) && FreeSet(bitmap[..], n) == old(FreeSet(bitmap[..], n)) - {r}
    ensures r >= 0 ==> forall b: nat :: b in old(FreeSet(bitmap[..], n)) ==> r <= b
    ensures r < 0 <==> old(FreeSet(bitmap[..], n)) == {}
    ensures r < 0 ==> r == -E_NO_DISK && bitmap[..] == old(bitmap[..])
  {
    for i := 0 to n
      invariant bitmap[..] == old(bitmap[..])
      invariant forall b: nat :: b < i ==> b !in FreeSet(bitmap[..], n)
    {
      if bitmap[i / 32][i % 32] {
        WriteBit(bitmap, i, false);
        return i;
      }
    }
    return -E_NO_DISK;
  }

  method CheckBitmap(bitmap: array<Word>, n: nat) returns (ok: bool)
    requires n <= 32 * bitmap.Length
    ensures ok <==> forall b: nat :: b < Reserved(n) ==> b !in FreeSet(bitmap[..], n)
  {
    var i: nat := 0;
    while i * 32768 < n
      invariant i <= (n + 32767) / 32768
      invariant forall b: nat :: 2 <= b < 2 + i ==> b !in FreeSet(bitmap[..], n)
    {
      var free := BlockIsFree(bitmap, n, 2 + i);
      if free { return false; }
      i := i + 1;
    }
    var zero := BlockIsFree(bitmap, n, 0);
    var one := BlockIsFree(bitmap, n, 1);
    ok := !zero && !one;
  }
}
