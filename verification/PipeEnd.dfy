/** The end of the data: devpipe_read over the ring, against a writer that may close.

    devpipe_read tests the ring for emptiness and then, if nothing was read yet, whether the other
    end is closed; the two tests are separate steps.  That the second answers truly is shown for
    `PipeClose`. */
module PipeEnd {
  import opened PipeRing

  /** `open`: someone holds the write end.  `empty`: the reader found the ring empty, when the writer's
      position was `seen`, and has not tested for closed yet.  `zero`: the read returned 0. */
  datatype Channel = Channel(p: Pipe, open: bool, empty: bool, seen: nat, zero: bool)

  datatype Act = Ring(a: Action) | SeeEmpty | TestClosed | Close

  predicate Writes(a: Action) { a.BeginWrite? || a == TestRoom || a == Store || a == PassWrite }

  ghost predicate Moves(c: Channel, act: Act, c': Channel)
    requires |c.p.buf| == SIZE
  {
    match act
    case Ring(a) =>
      && (if Writes(a) then c.open else !c.empty && !c.zero)
      && Next(c.p, a, c'.p) && c' == c.(p := c'.p)
    case SeeEmpty =>
      c.p.r == RTest && c.p.rpos == c.p.wpos && !c.empty && !c.zero && c' == c.(empty := true, seen := c.p.wpos)
    case TestClosed =>
      c.empty && c' == if c.open then c.(empty := false) else c.(empty := false, zero := true)
    case Close => c.open && c.p.w == WIdle && c' == c.(open := false)
  }

  ghost predicate IsChannelRun(tr: seq<Channel>, acts: seq<Act>) {
    |tr| == |acts| + 1 && forall k :: 0 <= k < |acts| ==> |tr[k].p.buf| == SIZE && Moves(tr[k], acts[k], tr[k + 1])
  }

  ghost predicate Starts(c: Channel) { Init(c.p) && c.open && !c.empty && !c.zero }

  /** Once the reader has found the ring empty it stays where it is; once the end is closed nothing more
      is written. */
  ghost predicate ChannelInv(c: Channel) {
    && Inv(c.p) && (!c.open ==> c.p.w == WIdle) && (c.zero ==> !c.open)
    && (c.empty || c.zero ==> c.p.rpos == c.seen <= c.p.wpos)
  }

  lemma ChannelKeeps(c: Channel, act: Act, c': Channel)
    requires ChannelInv(c) && Moves(c, act, c')
    ensures ChannelInv(c')
  {
    if act.Ring? { StepKeeps(c.p, act.a, c'.p); }
  }

  lemma {:induction false} ChannelRun(tr: seq<Channel>, acts: seq<Act>, k: nat)
    requires IsChannelRun(tr, acts) && Starts(tr[0]) && k < |tr|
    ensures ChannelInv(tr[k])
  {
    if k > 0 {
      ChannelRun(tr, acts, k - 1);
      ChannelKeeps(tr[k - 1], acts[k - 1], tr[k]);
    }
  }

  /** A read that returns 0 has returned every byte that will ever be written if and only if no byte was
      written since it found the ring empty. */
  lemma ZeroAtEndIff(tr: seq<Channel>, acts: seq<Act>, k: nat)
    requires IsChannelRun(tr, acts) && Starts(tr[0]) && k < |tr| && tr[k].zero
    ensures !tr[k].open && tr[k].p.read <= tr[k].p.written
    ensures tr[k].p.read == tr[k].p.written <==> tr[k].p.wpos == tr[k].seen
  {
    ChannelRun(tr, acts, k);
    var p := tr[k].p;
    assert p.read == p.written[..p.rpos];
    assert p.wpos == p.rpos ==> p.written[..p.rpos] == p.written;
  }

  /** Nothing is written after that: what the read left behind is all that there is. */
  lemma {:induction false} NothingFollows(tr: seq<Channel>, acts: seq<Act>, j: nat, k: nat)
    requires IsChannelRun(tr, acts) && Starts(tr[0]) && j <= k < |tr| && tr[j].zero
    ensures tr[k].zero && tr[k].p.written == tr[j].p.written && tr[k].p.read == tr[j].p.read
    decreases k
  {
    if j < k {
      NothingFollows(tr, acts, j, k - 1);
      ChannelRun(tr, acts, k - 1);
      assert Moves(tr[k - 1], acts[k - 1], tr[k]);
    }
  }

  /** The failing run: the reader finds the ring empty, the writer writes a byte and closes, and the
      reader returns 0 with the byte unread. */
  function EarlyRun(b: bv8): seq<Act> {
    [Ring(BeginRead), SeeEmpty, Ring(BeginWrite(b)), Ring(TestRoom), Ring(Store), Ring(PassWrite), Close, TestClosed]
  }

  lemma ZeroTooEarly(b: bv8) returns (tr: seq<Channel>)
    ensures IsChannelRun(tr, EarlyRun(b)) && Starts(tr[0])
    ensures tr[8].zero && tr[8].p.read == [] && tr[8].p.written == [b]
  {
    var p0 := Pipe(0, 0, seq(SIZE, _ => 0), WIdle, RIdle, [], []);
    var p1 := p0.(r := RTest);
    var p3, p4 := p1.(w := WTest(b)), p1.(w := WRoom(b));
    var p5 := p1.(buf := p1.buf[0 := b], w := WStored(b));
    var p6 := p5.(wpos := 1, w := WIdle, written := [b]);
    var c0, c2 := Channel(p0, true, false, 0, false), Channel(p1, true, true, 0, false);
    tr := [c0, c0.(p := p1), c2, c2.(p := p3), c2.(p := p4), c2.(p := p5), c2.(p := p6),
           c2.(p := p6, open := false), Channel(p6, false, false, 0, true)];
    assert [] + [b] == [b];
  }
}
