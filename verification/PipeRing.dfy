/** The pipe buffer: one reader and one writer without a lock.

    Each step is one access to the shared structure: the test that reads the other side's
    position, the access to p_buf, or the increment of one's own position. */
module PipeRing {

  const SIZE: nat := 32

  /** The writer of one byte, in devpipe_write; the reader of one byte, in devpipe_read. */
  datatype Writer = WIdle | WTest(b: bv8) | WRoom(b: bv8) | WStored(b: bv8)
  datatype Reader = RIdle | RTest | RData | RTaken(b: bv8)

  /** `written` and `read` are the bytes whose positions have been passed. */
  datatype Pipe = Pipe(rpos: nat, wpos: nat, buf: seq<bv8>, w: Writer, r: Reader, written: seq<bv8>, read: seq<bv8>)

  datatype Action =
    | BeginWrite(b: bv8) | TestRoom | Store | PassWrite
    | BeginRead | TestData | Load | PassRead

  ghost predicate Next(p: Pipe, a: Action, p': Pipe)
    requires |p.buf| == SIZE
  {
    match a
    case BeginWrite(b) => p.w == WIdle && p' == p.(w := WTest(b))
    case TestRoom => p.w.WTest? && p' == if p.wpos >= p.rpos + SIZE then p else p.(w := WRoom(p.w.b))
    case Store => p.w.WRoom? && p' == p.(buf := p.buf[p.wpos % SIZE := p.w.b], w := WStored(p.w.b))
    case PassWrite => p.w.WStored? && p' == p.(wpos := p.wpos + 1, w := WIdle, written := p.written + [p.w.b])
    case BeginRead => p.r == RIdle && p' == p.(r := RTest)
    case TestData => p.r == RTest && p' == if p.rpos == p.wpos then p else p.(r := RData)
    case Load => p.r == RData && p' == p.(r := RTaken(p.buf[p.rpos % SIZE]))
    case PassRead => p.r.RTaken? && p' == p.(rpos := p.rpos + 1, r := RIdle, read := p.read + [p.r.b])
  }

  ghost predicate Inv(p: Pipe) {
    && |p.buf| == SIZE && |p.written| == p.wpos && |p.read| == p.rpos
    && p.rpos <= p.wpos <= p.rpos + SIZE
    && p.read == p.written[..p.rpos]
    && (forall k :: p.rpos <= k < p.wpos ==> InBuf(p, k))
    && (p.w.WRoom? ==> p.wpos < p.rpos + SIZE)
    && (p.w.WStored? ==> p.wpos < p.rpos + SIZE && p.buf[p.wpos % SIZE] == p.w.b)
    && (p.r == RData ==> p.rpos < p.wpos)
    && (p.r.RTaken? ==> p.rpos < p.wpos && p.r.b == p.written[p.rpos])
  }

  /** The k-th byte written is in its place in the ring. */
  predicate InBuf(p: Pipe, k: nat)
    requires |p.buf| == SIZE && k < |p.written|
  {
    p.buf[k % SIZE] == p.written[k]
  }

  lemma Apart(j: nat, k: nat)
    requires j < k < j + SIZE
    ensures j % SIZE != k % SIZE
  {}

  lemma StepKeeps(p: Pipe, a: Action, p': Pipe)
    requires Inv(p) && Next(p, a, p')
    ensures Inv(p')
  {
    match a
    case Store =>
      forall k | p'.rpos <= k < p'.wpos ensures InBuf(p', k) {
        Apart(k, p.wpos);
        assert InBuf(p, k);
      }
    case PassWrite =>
      forall k | p'.rpos <= k < p'.wpos ensures InBuf(p', k) {
        if k < p.wpos { assert InBuf(p, k); }
      }
      assert p'.written[..p'.rpos] == p.written[..p.rpos];
    case Load =>
      assert InBuf(p, p.rpos);
      forall k | p'.rpos <= k < p'.wpos ensures InBuf(p', k) { assert InBuf(p, k); }
    case PassRead =>
      assert p.written[..p.rpos + 1] == p.written[..p.rpos] + [p.written[p.rpos]];
      forall k | p'.rpos <= k < p'.wpos ensures InBuf(p', k) { assert InBuf(p, k); }
    case _ =>
      forall k | p'.rpos <= k < p'.wpos ensures InBuf(p', k) { assert InBuf(p, k); }
  }

  ghost predicate Init(p: Pipe) {
    |p.buf| == SIZE && p.rpos == 0 && p.wpos == 0 && p.w == WIdle && p.r == RIdle && p.written == [] && p.read == []
  }

  ghost predicate IsRun(tr: seq<Pipe>, acts: seq<Action>) {
    |tr| == |acts| + 1 && forall k :: 0 <= k < |acts| ==> |tr[k].buf| == SIZE && Next(tr[k], acts[k], tr[k + 1])
  }

  lemma {:induction false} RunInv(tr: seq<Pipe>, acts: seq<Action>, k: nat)
    requires IsRun(tr, acts) && Init(tr[0]) && k < |tr|
    ensures Inv(tr[k])
  {
    if k > 0 {
      RunInv(tr, acts, k - 1);
      StepKeeps(tr[k - 1], acts[k - 1], tr[k]);
    }
  }

  /** Pipe FIFO: under every interleaving, the bytes read are exactly the first rpos bytes
      written, in order, and the writer is never more than 32 bytes ahead. */
  lemma PipeFifo(tr: seq<Pipe>, acts: seq<Action>, k: nat)
    requires IsRun(tr, acts) && Init(tr[0]) && k < |tr|
    ensures tr[k].rpos <= tr[k].wpos <= tr[k].rpos + SIZE && |tr[k].written| == tr[k].wpos
    ensures tr[k].read == tr[k].written[..tr[k].rpos]
  {
    RunInv(tr, acts, k);
  }

  /** Nothing is ever taken back: histories only grow along a run. */
  lemma {:induction false} HistoriesGrow(tr: seq<Pipe>, acts: seq<Action>, j: nat, k: nat)
    requires IsRun(tr, acts) && j <= k < |tr|
    ensures tr[j].written <= tr[k].written && tr[j].read <= tr[k].read
    decreases k - j
  {
    if j < k {
      HistoriesGrow(tr, acts, j, k - 1);
      assert Next(tr[k - 1], acts[k - 1], tr[k]);
    }
  }
}
