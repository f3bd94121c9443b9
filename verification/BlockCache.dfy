/** The file server's block cache: pages faulted in from flash, written back when dirty. */
module BlockCache {
  import opened Flash

  const DISKMAP: nat := 0x1000_0000
  const DISKSIZE: nat := 0xC000_0000
  const BLKSIZE: nat := 4096

  function DiskAddr(b: nat): nat { DISKMAP + b * BLKSIZE }

  /** The block an address in the disk map belongs to. */
  function BlockOf(addr: nat): nat
    requires DISKMAP <= addr
  {
    (addr - DISKMAP) / BLKSIZE
  }

  /** Any address inside a block's page leads back to the block, within 32 bits. */
  lemma AddrRoundTrip(b: nat, k: nat)
    requires b < DISKSIZE / BLKSIZE && k < BLKSIZE
    ensures DISKMAP <= DiskAddr(b) + k < DISKMAP + DISKSIZE < 0x1_0000_0000 && BlockOf(DiskAddr(b) + k) == b
    ensures DiskAddr(b) + k - (DiskAddr(b) + k) % BLKSIZE == DiskAddr(b)
  {
    assert (b * BLKSIZE + k) / BLKSIZE == b && (DISKMAP + b * BLKSIZE + k) % BLKSIZE == k;
  }

  datatype Page = Page(words: seq<Word>, dirty: bool)

  datatype State = State(flash: seq<Word>, pages: map<nat, Page>)

  predicate Shape(s: State) { |s.flash| == CAPWORDS && forall b :: b in s.pages ==> |s.pages[b].words| == BLKWORDS }

  /** The block as the server sees it. */
  function View(s: State, b: nat): (r: seq<Word>)
    requires Shape(s)
    ensures |r| == BLKWORDS
  {
    if b in s.pages then s.pages[b].words else OnFlash(s.flash, b)
  }

  predicate CleanAgrees(s: State, b: nat)
    requires Shape(s)
  {
    b in s.pages && !s.pages[b].dirty ==> s.pages[b].words == OnFlash(s.flash, b)
  }

  /** Mapped clean pages equal flash. */
  ghost predicate Coherent(s: State) { Shape(s) && forall b: nat :: CleanAgrees(s, b) }

  function Zeros(): seq<Word> { seq(BLKWORDS, _ => 0) }

  /* ---- steps ---- */

  function Faulted(s: State, b: nat): State
    requires Shape(s)
  {
    s.(pages := s.pages[b := Page(OnFlash(s.flash, b), false)])
  }

  function Put(flash: seq<Word>, b: nat, words: seq<Word>): seq<Word>
    requires |flash| == CAPWORDS && |words| == BLKWORDS && b < CAPBLOCKS
  {
    flash[..Base(b)] + words + flash[Base(b) + BLKWORDS..]
  }

  predicate Dirty(s: State, b: nat) { b in s.pages && s.pages[b].dirty }

  function Flushed(s: State, b: nat): State
    requires Shape(s)
  {
    if !Dirty(s, b) then s
    else
      var words := s.pages[b].words;
      State(if b < CAPBLOCKS then Put(s.flash, b, words) else s.flash, s.pages[b := Page(words, false)])
  }

  function Evicted(s: State, b: nat): State { s.(pages := s.pages - {b}) }

  function Stored(s: State, b: nat, k: nat, w: Word): State
    requires Shape(s) && b in s.pages && k < BLKWORDS
  {
    s.(pages := s.pages[b := Page(s.pages[b].words[k := w], true)])
  }

  lemma OnFlashAfterPut(flash: seq<Word>, b: nat, words: seq<Word>, c: nat)
    requires |flash| == CAPWORDS && |words| == BLKWORDS && b < CAPBLOCKS
    ensures OnFlash(Put(flash, b, words), c) == if c == b then words else OnFlash(flash, c)
  {
    var flash' := Put(flash, b, words);
    if c < CAPBLOCKS {
      forall k | 0 <= k < BLKWORDS
        ensures flash'[Base(c) + k] == if c == b then words[k] else flash[Base(c) + k]
      {
        if c < b { assert Base(c) + BLKWORDS <= Base(b); }
        if b < c { assert Base(b) + BLKWORDS <= Base(c); }
      }
    }
  }

  lemma FaultKeepsView(s: State, b: nat, c: nat)
    requires Coherent(s) && b !in s.pages
    ensures Coherent(Faulted(s, b)) && View(Faulted(s, b), c) == View(s, c)
  {
    forall d: nat ensures CleanAgrees(Faulted(s, b), d) { assert CleanAgrees(s, d); }
  }

  lemma FlushKeepsView(s: State, b: nat, c: nat)
    requires Shape(s)
    ensures Shape(Flushed(s, b)) && View(Flushed(s, b), c) == View(s, c)
  {
    if Dirty(s, b) && b < CAPBLOCKS { OnFlashAfterPut(s.flash, b, s.pages[b].words, c); }
  }

  /** Flushing keeps clean pages equal to flash exactly when the block is on the flash, or is blank. */
  lemma FlushCoherentIff(s: State, b: nat)
    requires Coherent(s)
    ensures Coherent(Flushed(s, b)) <==> !Dirty(s, b) || b < CAPBLOCKS || s.pages[b].words == Zeros()
  {
    var s' := Flushed(s, b);
    if Dirty(s, b) {
      var words := s.pages[b].words;
      forall c: nat | c != b ensures CleanAgrees(s', c) {
        assert CleanAgrees(s, c);
        if b < CAPBLOCKS { OnFlashAfterPut(s.flash, b, words, c); }
      }
      if b < CAPBLOCKS { OnFlashAfterPut(s.flash, b, words, b); }
      assert CleanAgrees(s', b) <==> words == OnFlash(s'.flash, b);
    }
  }

  /** Only a clean page may be unmapped without losing what it holds. */
  lemma EvictKeepsViewIff(s: State, b: nat)
    requires Coherent(s) && b in s.pages
    ensures Coherent(Evicted(s, b))
    ensures (forall c: nat :: View(Evicted(s, b), c) == View(s, c)) <==>
      !s.pages[b].dirty || s.pages[b].words == OnFlash(s.flash, b)
  {
    var s' := Evicted(s, b);
    assert CleanAgrees(s, b);
    forall c: nat ensures CleanAgrees(s', c) { assert CleanAgrees(s, c); }
    assert View(s', b) == OnFlash(s.flash, b);
    assert forall c: nat :: c != b ==> View(s', c) == View(s, c);
  }

  lemma StoreView(s: State, b: nat, k: nat, w: Word, c: nat)
    requires Coherent(s) && b in s.pages && k < BLKWORDS
    ensures Coherent(Stored(s, b, k, w))
    ensures View(Stored(s, b, k, w), c) == if c == b then View(s, c)[k := w] else View(s, c)
  {
    forall d: nat ensures CleanAgrees(Stored(s, b, k, w), d) { assert CleanAgrees(s, d); }
  }

  /* ---- fs_sync ---- */

  /** After the flush loop has passed the blocks from 1 to below n. */
  function Synced(s: State, n: nat): (s': State)
    requires Shape(s)
    ensures Shape(s')
  {
    if n <= 1 then s else Flushed(Synced(s, n - 1), n - 1)
  }

  /** What the flush loop leaves of one block: its page, and its place on the flash. */
  lemma {:induction false} SyncedBlock(s: State, n: nat, b: nat)
    requires Shape(s)
    ensures b in Synced(s, n).pages <==> b in s.pages
    ensures View(Synced(s, n), b) == View(s, b)
    ensures Dirty(Synced(s, n), b) <==> Dirty(s, b) && !(1 <= b < n)
    ensures OnFlash(Synced(s, n).flash, b) ==
            if 1 <= b < n && Dirty(s, b) && b < CAPBLOCKS then s.pages[b].words else OnFlash(s.flash, b)
  {
    if n > 1 {
      var t := Synced(s, n - 1);
      SyncedBlock(s, n - 1, b);
      SyncedBlock(s, n - 1, n - 1);
      FlushKeepsView(t, n - 1, b);
      if Dirty(t, n - 1) && n - 1 < CAPBLOCKS { OnFlashAfterPut(t.flash, n - 1, t.pages[n - 1].words, b); }
    }
  }

  /** After fs_sync block b of the flash is what the server sees, exactly when b is on the flash,
      was not written, or is blank. */
  lemma SyncReachesFlashIff(s: State, n: nat, b: nat)
    requires Coherent(s) && 1 <= b < n
    ensures OnFlash(Synced(s, n).flash, b) == View(Synced(s, n), b) <==>
      b < CAPBLOCKS || !Dirty(s, b) || View(s, b) == Zeros()
  {
    SyncedBlock(s, n, b);
    assert CleanAgrees(s, b);
  }

  /** fs_sync writes no word of the flash outside the dirty blocks from 1 to below n. */
  lemma {:induction false} SyncWritesOnly(s: State, n: nat, k: nat)
    requires Shape(s) && k < CAPWORDS
    requires forall b :: 1 <= b < n && Dirty(s, b) && b < CAPBLOCKS ==> !(Base(b) <= k < Base(b) + BLKWORDS)
    ensures Synced(s, n).flash[k] == s.flash[k]
  {
    if n > 1 {
      SyncWritesOnly(s, n - 1, k);
      SyncedBlock(s, n - 1, n - 1);
    }
  }

  /** On a disk that fits the flash, fs_sync leaves every block clean and on the flash. */
  lemma SyncOnFittingDisk(s: State, n: nat)
    requires Coherent(s) && n <= CAPBLOCKS
    ensures Coherent(Synced(s, n))
    ensures forall b :: 1 <= b < n ==> OnFlash(Synced(s, n).flash, b) == View(s, b)
  {
    forall b: nat
      ensures CleanAgrees(Synced(s, n), b) && (1 <= b < n ==> OnFlash(Synced(s, n).flash, b) == View(s, b))
    {
      SyncedBlock(s, n, b);
      assert CleanAgrees(s, b);
    }
  }

  /* ---- the cache itself ---- */

  datatype Op = LoadOp(b: nat, k: nat) | StoreOp(b: nat, k: nat, w: Word) | FlushOp(b: nat) | UnmapOp(b: nat) | SyncOp

  /** The plain memory the cache stands for: block c after the stores of a run. */
  function Plain(ops: seq<Op>, c: nat, words: seq<Word>): (r: seq<Word>)
    requires |words| == BLKWORDS
    ensures |r| == BLKWORDS
  {
    if ops == [] then words
    else After(ops[|ops| - 1], c, Plain(ops[..|ops| - 1], c, words))
  }

  function After(op: Op, c: nat, words: seq<Word>): (r: seq<Word>)
    requires |words| == BLKWORDS
    ensures |r| == BLKWORDS
  {
    if op.StoreOp? && op.b == c && op.k < BLKWORDS then words[op.k := op.w] else words
  }

  lemma PlainStep(ops: seq<Op>, n: nat, c: nat, words: seq<Word>)
    requires n < |ops| && |words| == BLKWORDS
    ensures Plain(ops[..n + 1], c, words) == After(ops[n], c, Plain(ops[..n], c, words))
  {
    assert ops[..n + 1][..n] == ops[..n];
  }

  /** Answer i of a run is what plain memory holds there, if step i is a load. */
  predicate Answers(s: State, ops: seq<Op>, i: nat, w: Word)
    requires Shape(s)
  {
    i < |ops| && ops[i].LoadOp? && ops[i].k < BLKWORDS ==> w == Plain(ops[..i], ops[i].b, View(s, ops[i].b))[ops[i].k]
  }

  /** After n steps of a run block c is what plain memory would hold. */
  predicate Matches(s: State, t: State, ops: seq<Op>, n: nat, c: nat)
    requires Shape(s) && Shape(t) && n <= |ops|
  {
    View(t, c) == Plain(ops[..n], c, View(s, c))
  }

  lemma RunStep(s: State, t: State, u: State, ops: seq<Op>, n: nat, m: nat, w: Word)
    requires m == n + 1 && Shape(s) && Shape(t) && Shape(u) && n < |ops| && (forall c: nat :: Matches(s, t, ops, n, c))
    requires forall c: nat :: View(u, c) == After(ops[n], c, View(t, c))
    requires ops[n].LoadOp? && ops[n].k < BLKWORDS ==> w == View(t, ops[n].b)[ops[n].k]
    ensures (forall c: nat :: Matches(s, u, ops, m, c)) && Answers(s, ops, n, w)
  {
    forall c: nat ensures Matches(s, u, ops, m, c) {
      PlainStep(ops, n, c, View(s, c));
      assert Matches(s, t, ops, n, c);
    }
    if ops[n].LoadOp? { assert Matches(s, t, ops, n, ops[n].b); }
  }

  predicate OpOk(op: Op, n: nat) {
    match op
    case LoadOp(b, k) => 1 <= b < n && k < BLKWORDS
    case StoreOp(b, k, _) => 1 <= b < n && k < BLKWORDS
    case FlushOp(b) => 1 <= b < n
    case UnmapOp(b) => 1 <= b < n
    case SyncOp => true
  }

  class Cache {
    const flash: array<Word>
    const nblocks: nat
    var pages: map<nat, Page>

    /** A server that has just started: nothing is mapped. */
    constructor (flash: array<Word>, nblocks: nat)
      ensures this.flash == flash && this.nblocks == nblocks && pages == map[]
    {
      this.flash, this.nblocks, pages := flash, nblocks, map[];
    }

    ghost function S(): State reads this, flash { State(flash[..], pages) }

    ghost predicate Ready() reads this, flash { flash.Length == CAPWORDS && nblocks <= 0xC_0000 && Coherent(S()) }

    /** bc_pgfault; false where the source panics. */
    method PageFault(addr: nat) returns (ok: bool)
      requires Ready() && (addr >= DISKMAP ==> BlockOf(addr) !in pages)
      modifies `pages
      ensures ok <==> DISKMAP <= addr < DISKMAP + DISKSIZE && BlockOf(addr) < nblocks
      ensures S() == if ok then Faulted(old(S()), BlockOf(addr)) else old(S())
    {
      if addr < DISKMAP || addr >= DISKMAP + DISKSIZE { return false; }
      var b := (addr - DISKMAP) / BLKSIZE;
      if b >= nblocks { return false; }
      var page := new Word[BLKWORDS](_ => 0);
      assert page[..] == Zeros();
      ReadSectors(flash, b, page);
      pages := pages[b := Page(page[..], false)];
      return true;
    }

    /** flush_block, for any address inside the page; false where the source panics. */
    method FlushBlock(addr: nat) returns (ok: bool)
      requires flash.Length == CAPWORDS && Shape(S())
      modifies this, flash
      ensures ok <==> DISKMAP <= addr < DISKMAP + DISKSIZE
      ensures S() == if ok then Flushed(old(S()), BlockOf(addr)) else old(S())
    {
      if addr < DISKMAP || addr >= DISKMAP + DISKSIZE { return false; }
      var b := (addr - DISKMAP) / BLKSIZE;
      if b !in pages || !pages[b].dirty { return true; }
      ghost var s := S();
      var words := pages[b].words;
      WriteSectors(flash, b, words);
      if b < CAPBLOCKS { assert flash[..] == Put(s.flash, b, words); }
      pages := pages[b := Page(words, false)];
      return true;
    }

    /** fs_sync. */
    method Sync()
      requires flash.Length == CAPWORDS && Shape(S()) && nblocks <= 0xC_0000
      modifies this, flash
      ensures S() == Synced(old(S()), nblocks)
    {
      var i := 1;
      while i < nblocks
        invariant 1 <= i && (i <= nblocks || i == 1) && Shape(S()) && S() == Synced(old(S()), i)
      {
        AddrRoundTrip(i, 0);
        var ok := FlushBlock(DiskAddr(i));
        i := i + 1;
      }
      assert i == nblocks || (i == 1 && Synced(old(S()), nblocks) == old(S()));
    }

    /** A load by the server: a miss faults the block in first. */
    method Load(b: nat, k: nat) returns (w: Word)
      requires Ready() && 1 <= b < nblocks && k < BLKWORDS
      modifies `pages
      ensures Ready() && b in pages && w == View(old(S()), b)[k]
      ensures forall c: nat :: View(S(), c) == View(old(S()), c)
    {
      if b !in pages {
        ghost var s := S();
        AddrRoundTrip(b, 4 * k);
        var ok := PageFault(DiskAddr(b) + 4 * k);
        forall c: nat ensures Coherent(S()) && View(S(), c) == View(s, c) { FaultKeepsView(s, b, c); }
      }
      assert View(S(), b) == View(old(S()), b);
      w := pages[b].words[k];
    }

    /** A store by the server; the hardware sets the page's dirty bit. */
    method Store(b: nat, k: nat, w: Word)
      requires Ready() && 1 <= b < nblocks && k < BLKWORDS
      modifies `pages
      ensures Ready()
      ensures forall c: nat :: View(S(), c) == if c == b then View(old(S()), c)[k := w] else View(old(S()), c)
    {
      var was := Load(b, k);
      ghost var s := S();
      pages := pages[b := Page(pages[b].words[k := w], true)];
      forall c: nat ensures Coherent(S()) && View(S(), c) == if c == b then View(s, c)[k := w] else View(s, c) {
        StoreView(s, b, k, w, c);
      }
    }

    /** One step of a run; unmapping is of clean pages. */
    method Perform(op: Op) returns (w: Word)
      requires Ready() && nblocks <= CAPBLOCKS && OpOk(op, nblocks)
      modifies this, flash
      ensures Ready()
      ensures op.LoadOp? ==> w == View(old(S()), op.b)[op.k]
      ensures forall c: nat :: View(S(), c) == After(op, c, View(old(S()), c))
    {
      w := 0;
      ghost var s := S();
      match op {
        case LoadOp(b, k) => w := Load(b, k);
        case StoreOp(b, k, v) => Store(b, k, v);
        case FlushOp(b) =>
          AddrRoundTrip(b, 0);
          var ok := FlushBlock(DiskAddr(b));
          FlushCoherentIff(s, b);
          forall c: nat ensures View(S(), c) == View(s, c) { FlushKeepsView(s, b, c); }
        case UnmapOp(b) =>
          if b in pages && !pages[b].dirty {
            EvictKeepsViewIff(s, b);
            pages := pages - {b};
          }
        case SyncOp =>
          Sync();
          SyncOnFittingDisk(s, nblocks);
          forall c: nat ensures View(S(), c) == View(s, c) { SyncedBlock(s, nblocks, c); }
      }
    }

    /** On a disk that fits the flash, whatever is faulted, flushed, unmapped and synced in between,
        every load of a run returns what a plain memory would, and so does every block at the end. */
    method Run(ops: seq<Op>) returns (out: seq<Word>)
      requires Ready() && nblocks <= CAPBLOCKS && forall i :: 0 <= i < |ops| ==> OpOk(ops[i], nblocks)
      modifies this, flash
      ensures Ready() && |out| == |ops|
      ensures forall c: nat :: View(S(), c) == Plain(ops, c, View(old(S()), c))
      ensures forall i :: 0 <= i < |ops| ==> Answers(old(S()), ops, i, out[i])
    {
      out := [];
      ghost var s, t := S(), S();
      for n := 0 to |ops|
        invariant Ready() && t == S() && |out| == n
        invariant forall c: nat :: Matches(s, t, ops, n, c)
        invariant forall i :: 0 <= i < n ==> Answers(s, ops, i, out[i])
      {
        var w := Perform(ops[n]);
        RunStep(s, t, S(), ops, n, n + 1, w);
        out, t := out + [w], S();
      }
      assert ops[..|ops|] == ops;
      forall c: nat ensures View(t, c) == Plain(ops, c, View(s, c)) { assert Matches(s, t, ops, |ops|, c); }
    }
  }
}
