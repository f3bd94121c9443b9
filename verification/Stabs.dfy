/** stab_binsearch: binary search over the stabs of one type, with a key that moves. */
module Stabs {

  datatype Stab = Stab(typ: int, value: nat)

  const WORD: nat := 0x1_0000_0000

  predicate Match(stabs: seq<Stab>, lo: int, hi: int, typ: int, i: int) {
    0 <= lo <= i <= hi < |stabs| && stabs[i].typ == typ
  }

  ghost predicate Sorted(stabs: seq<Stab>, lo: int, hi: int, typ: int) {
    forall i, j :: Match(stabs, lo, hi, typ, i) && Match(stabs, lo, hi, typ, j) && i <= j ==>
      stabs[i].value <= stabs[j].value
  }

  /** Values are addresses below the last one, so the key cannot wrap. */
  ghost predicate Fits(stabs: seq<Stab>, lo: int, hi: int, typ: int) {
    forall i :: Match(stabs, lo, hi, typ, i) ==> stabs[i].value < WORD - 1
  }

  /** The last match at or below m, or lo - 1. */
  function LastMatch(stabs: seq<Stab>, lo: int, m: int, typ: int): (k: int)
    requires 0 <= lo && m < |stabs| && lo - 1 <= m
    ensures lo - 1 <= k <= m
    decreases m - lo + 1
  {
    if m < lo then lo - 1
    else if stabs[m].typ == typ then m
    else LastMatch(stabs, lo, m - 1, typ)
  }

  lemma {:induction false} LastMatchIsLast(stabs: seq<Stab>, lo: int, m: int, typ: int)
    requires 0 <= lo && m < |stabs| && lo - 1 <= m
    ensures var k := LastMatch(stabs, lo, m, typ);
            (k >= lo ==> stabs[k].typ == typ) && forall i :: k < i <= m && lo <= i ==> stabs[i].typ != typ
    decreases m - lo + 1
  {
    if m >= lo && stabs[m].typ != typ { LastMatchIsLast(stabs, lo, m - 1, typ); }
  }

  /** The right end of the range when the search first lands on `addr` itself, or lo - 1
      if it never does: up to that moment it is a plain binary search. */
  function HitRight(stabs: seq<Stab>, lo: int, l: int, r: int, typ: int, addr: nat): int
    requires 0 <= lo <= l && r < |stabs| && l - 1 <= r
    decreases r - l + 1
  {
    if l > r then lo - 1
    else
      var mid := (l + r) / 2;
      var m := LastMatch(stabs, l, mid, typ);
      if m < l || stabs[m].value < addr then HitRight(stabs, lo, mid + 1, r, typ, addr)
      else if stabs[m].value > addr then HitRight(stabs, lo, l, m - 1, typ, addr)
      else r
  }

  lemma HitUp(stabs: seq<Stab>, lo: int, l: int, r: int, typ: int, addr: nat, m: int)
    requires 0 <= lo <= l <= r < |stabs| && m == LastMatch(stabs, l, (l + r) / 2, typ)
    requires m < l || stabs[m].value < addr
    ensures HitRight(stabs, lo, l, r, typ, addr) == HitRight(stabs, lo, (l + r) / 2 + 1, r, typ, addr)
  {}

  lemma HitDown(stabs: seq<Stab>, lo: int, l: int, r: int, typ: int, addr: nat, m: int)
    requires 0 <= lo <= l <= r < |stabs| && m == LastMatch(stabs, l, (l + r) / 2, typ) && m >= l
    requires stabs[m].value > addr
    ensures HitRight(stabs, lo, l, r, typ, addr) == HitRight(stabs, lo, l, m - 1, typ, addr)
  {}

  lemma HitHere(stabs: seq<Stab>, lo: int, l: int, r: int, typ: int, addr: nat, m: int)
    requires 0 <= lo <= l <= r < |stabs| && m == LastMatch(stabs, l, (l + r) / 2, typ) && m >= l
    requires stabs[m].value == addr
    ensures HitRight(stabs, lo, l, r, typ, addr) == r
  {}

  /** left is the last match at or below addr. */
  ghost predicate Contains(stabs: seq<Stab>, lo: int, hi: int, typ: int, addr: nat, left: int) {
    && Match(stabs, lo, hi, typ, left) && stabs[left].value <= addr
    && forall i :: Match(stabs, lo, hi, typ, i) && stabs[i].value <= addr ==> i <= left
  }

  /** right ends just before the next match after left, or at the end of the region. */
  ghost predicate EndsBeforeNext(stabs: seq<Stab>, lo: int, hi: int, typ: int, left: int, right: int) {
    && left <= right <= hi && (right == hi || Match(stabs, lo, hi, typ, right + 1))
    && forall i :: left < i <= right ==> !Match(stabs, lo, hi, typ, i)
  }

  ghost predicate Any(stabs: seq<Stab>, lo: int, hi: int, typ: int, addr: nat) {
    exists i :: Match(stabs, lo, hi, typ, i) && stabs[i].value <= addr
  }

  /* ---- the state of the search ---- */

  /** The locals l, r and addr, and the two out-parameters. */
  datatype Cursor = Cursor(l: int, r: int, addr: nat, left: int, right: int)

  /** *region_right is the end of the interval that starts at or before r. */
  ghost predicate Framed(stabs: seq<Stab>, lo: int, hi: int, typ: int, c: Cursor) {
    && 0 <= lo <= c.l && hi < |stabs| && c.l - 1 <= c.r <= c.right <= hi && c.addr < WORD
    && (c.right == hi || Match(stabs, lo, hi, typ, c.right + 1))
    && (forall i :: c.r < i <= c.right ==> !Match(stabs, lo, hi, typ, i))
  }

  /** What has been ruled out on either side. */
  ghost predicate Ordered(stabs: seq<Stab>, lo: int, hi: int, typ: int, addr0: nat, c: Cursor) {
    && addr0 <= c.addr
    && (forall i :: Match(stabs, lo, hi, typ, i) && i < c.l ==> stabs[i].value < c.addr)
    && (forall i :: Match(stabs, lo, hi, typ, i) && i > c.r ==> stabs[i].value > addr0)
  }

  ghost predicate LeftOk(stabs: seq<Stab>, lo: int, hi: int, typ: int, c: Cursor) {
    || (c.left == lo && forall i :: Match(stabs, lo, hi, typ, i) ==> i >= c.l)
    || (Match(stabs, lo, hi, typ, c.left) && c.left <= c.r && stabs[c.left].value < c.addr)
  }

  /** The key moves past addr0 exactly when addr0 is hit, and past addr0 + 1 only if a stab
      with that value was still in range then.  `hit` is the right end at that moment, and
      `cur` the right end at which the remaining range would be hit. */
  ghost predicate KeyOk(stabs: seq<Stab>, lo: int, hi: int, typ: int, addr0: nat, hit: int, cur: int, c: Cursor) {
    && (c.addr == addr0 ==> cur == hit)
    && (c.addr > addr0 ==> c.r <= hit && Any(stabs, lo, hi, typ, addr0))
    && (c.addr > addr0 ==> forall i :: Match(stabs, lo, hi, typ, i) && c.r < i <= hit ==> stabs[i].value > addr0 + 1)
    && (c.addr > addr0 + 1 ==> NextAddr(stabs, lo, hi, typ, addr0, hit))
  }

  ghost predicate NextAddr(stabs: seq<Stab>, lo: int, hi: int, typ: int, addr: nat, hit: int) {
    exists i :: Match(stabs, lo, hi, typ, i) && stabs[i].value == addr + 1 && i <= hit
  }

  /** Some stab with value addr + 1 is still in range when addr is first hit. */
  ghost predicate Successor(stabs: seq<Stab>, lo: int, hi: int, typ: int, addr: nat)
    requires 0 <= lo && hi < |stabs| && lo - 1 <= hi
  {
    NextAddr(stabs, lo, hi, typ, addr, HitRight(stabs, lo, lo, hi, typ, addr))
  }

  ghost predicate Inv(stabs: seq<Stab>, lo: int, hi: int, typ: int, addr0: nat, hit: int, cur: int, c: Cursor) {
    && Framed(stabs, lo, hi, typ, c) && Ordered(stabs, lo, hi, typ, addr0, c)
    && LeftOk(stabs, lo, hi, typ, c) && KeyOk(stabs, lo, hi, typ, addr0, hit, cur, c)
  }

  /** m is the last match of the range at or below mid, or below the range. */
  predicate Probe(stabs: seq<Stab>, typ: int, c: Cursor, mid: int, m: int) {
    && 0 <= c.l <= mid <= c.r < |stabs| && c.l - 1 <= m <= mid && (m >= c.l ==> stabs[m].typ == typ)
    && forall i :: m < i <= mid && c.l <= i ==> stabs[i].typ != typ
  }

  lemma Skip(stabs: seq<Stab>, lo: int, hi: int, typ: int, addr0: nat, hit: int, cur: int, cur': int, c: Cursor,
             mid: int, m: int, c': Cursor)
    requires Inv(stabs, lo, hi, typ, addr0, hit, cur, c) && Probe(stabs, typ, c, mid, m) && m < c.l
    requires c.addr == addr0 ==> cur' == cur
    requires c' == c.(l := mid + 1)
    ensures Inv(stabs, lo, hi, typ, addr0, hit, cur', c')
  {
    forall i | Match(stabs, lo, hi, typ, i) && i < mid + 1 ensures i < c.l {}
  }

  lemma GoRight(stabs: seq<Stab>, lo: int, hi: int, typ: int, addr0: nat, hit: int, cur: int, cur': int, c: Cursor,
                mid: int, m: int, c': Cursor)
    requires Inv(stabs, lo, hi, typ, addr0, hit, cur, c) && Probe(stabs, typ, c, mid, m) && m >= c.l
    requires Sorted(stabs, lo, hi, typ) && stabs[m].value < c.addr
    requires c.addr == addr0 ==> cur' == cur
    requires c' == c.(l := mid + 1, left := m)
    ensures Inv(stabs, lo, hi, typ, addr0, hit, cur', c')
  {
    assert Match(stabs, lo, hi, typ, m);
    forall i | Match(stabs, lo, hi, typ, i) && i < mid + 1 ensures i <= m && stabs[i].value < c.addr {}
  }

  lemma GoLeft(stabs: seq<Stab>, lo: int, hi: int, typ: int, addr0: nat, hit: int, cur: int, cur': int, c: Cursor,
               mid: int, m: int, c': Cursor)
    requires Inv(stabs, lo, hi, typ, addr0, hit, cur, c) && Probe(stabs, typ, c, mid, m) && m >= c.l
    requires Sorted(stabs, lo, hi, typ) && stabs[m].value > c.addr
    requires c.addr == addr0 ==> cur' == cur
    requires c' == c.(r := m - 1, right := m - 1)
    ensures Inv(stabs, lo, hi, typ, addr0, hit, cur', c')
  {
    assert Match(stabs, lo, hi, typ, m);
    forall i | Match(stabs, lo, hi, typ, i) && i > m - 1 ensures stabs[i].value > c.addr {}
  }

  lemma Hit(stabs: seq<Stab>, lo: int, hi: int, typ: int, addr0: nat, hit: int, cur: int, cur': int, c: Cursor,
            mid: int, m: int, c': Cursor)
    requires Inv(stabs, lo, hi, typ, addr0, hit, cur, c) && Probe(stabs, typ, c, mid, m) && m >= c.l
    requires Sorted(stabs, lo, hi, typ) && Fits(stabs, lo, hi, typ) && stabs[m].value == c.addr
    requires c.addr == addr0 ==> cur == c.r
    requires c' == c.(l := m, left := m, addr := c.addr + 1)
    ensures Inv(stabs, lo, hi, typ, addr0, hit, cur', c')
  {
    assert Match(stabs, lo, hi, typ, m);
    forall i | Match(stabs, lo, hi, typ, i) && i < m ensures stabs[i].value < c.addr + 1 {}
  }

  /** When the range is empty: every match is on its side of the split. */
  lemma Done(stabs: seq<Stab>, lo: int, hi: int, typ: int, addr0: nat, hit: int, cur: int, c: Cursor, left: int)
    requires Inv(stabs, lo, hi, typ, addr0, hit, cur, c) && c.l > c.r && Sorted(stabs, lo, hi, typ)
    requires c.left <= left <= c.right && (left > c.left ==> Match(stabs, lo, hi, typ, left))
    requires forall i :: left < i <= c.right ==> !Match(stabs, lo, hi, typ, i)
    requires Any(stabs, lo, hi, typ, addr0) && (c.addr == addr0 ==> hit < lo)
    ensures Match(stabs, lo, hi, typ, left) && EndsBeforeNext(stabs, lo, hi, typ, left, c.right)
    ensures Contains(stabs, lo, hi, typ, addr0, left) <==> !NextAddr(stabs, lo, hi, typ, addr0, hit)
  {
    var a :| Match(stabs, lo, hi, typ, a) && stabs[a].value <= addr0;
    assert a <= c.r;
    assert a <= left;
    assert Match(stabs, lo, hi, typ, c.left) || a >= c.l;
    if NextAddr(stabs, lo, hi, typ, addr0, hit) {
      var i :| Match(stabs, lo, hi, typ, i) && stabs[i].value == addr0 + 1 && i <= hit;
      assert i <= left || i > c.r;
    }
  }

  /** No match at or below addr: the search never moves left, and closes in front of the
      first match. */
  lemma NoneBelow(stabs: seq<Stab>, lo: int, hi: int, typ: int, addr0: nat, hit: int, cur: int, c: Cursor, k: int)
    requires Inv(stabs, lo, hi, typ, addr0, hit, cur, c) && c.l > c.r && !Any(stabs, lo, hi, typ, addr0)
    requires Match(stabs, lo, hi, typ, k)
    ensures c.left == lo && c.right < hi && Match(stabs, lo, hi, typ, c.right + 1)
    ensures forall i :: i <= c.right ==> !Match(stabs, lo, hi, typ, i)
  {
    assert c.addr == addr0;
    assert k > c.right;
  }

  /* ---- whole searches ---- */

  /** One iteration of the search loop. */
  function Advance(stabs: seq<Stab>, typ: int, c: Cursor): Cursor
    requires 0 <= c.l <= c.r < |stabs|
  {
    var mid := (c.l + c.r) / 2;
    var m := LastMatch(stabs, c.l, mid, typ);
    if m < c.l then c.(l := mid + 1)
    else if stabs[m].value < c.addr then c.(l := mid + 1, left := m)
    else if stabs[m].value > c.addr then c.(r := m - 1, right := m - 1)
    else c.(l := m, left := m, addr := (c.addr + 1) % WORD)
  }

  predicate IsPath(stabs: seq<Stab>, typ: int, path: seq<Cursor>) {
    forall k :: 0 <= k < |path| - 1 ==>
      0 <= path[k].l <= path[k].r < |stabs| && path[k + 1] == Advance(stabs, typ, path[k])
  }

  /** How far the remaining range reaches when it is first hit. */
  function Remaining(stabs: seq<Stab>, lo: int, typ: int, addr0: nat, c: Cursor): int {
    if 0 <= lo <= c.l && c.r < |stabs| && c.l - 1 <= c.r then HitRight(stabs, lo, c.l, c.r, typ, addr0) else lo - 1
  }

  lemma RemainsUp(stabs: seq<Stab>, lo: int, typ: int, c: Cursor, m: int, c': Cursor)
    requires 0 <= lo <= c.l <= c.r < |stabs| && m == LastMatch(stabs, c.l, (c.l + c.r) / 2, typ)
    requires (m < c.l || stabs[m].value < c.addr) && c'.l == (c.l + c.r) / 2 + 1 && c'.r == c.r
    ensures Remaining(stabs, lo, typ, c.addr, c') == Remaining(stabs, lo, typ, c.addr, c)
  {
    HitUp(stabs, lo, c.l, c.r, typ, c.addr, m);
  }

  lemma RemainsDown(stabs: seq<Stab>, lo: int, typ: int, c: Cursor, m: int, c': Cursor)
    requires 0 <= lo <= c.l <= c.r < |stabs| && m == LastMatch(stabs, c.l, (c.l + c.r) / 2, typ)
    requires c.l <= m <= c.r && stabs[m].value > c.addr && c'.l == c.l && c'.r == m - 1
    ensures Remaining(stabs, lo, typ, c.addr, c') == Remaining(stabs, lo, typ, c.addr, c)
  {
    HitDown(stabs, lo, c.l, c.r, typ, c.addr, m);
  }

  /** Until addr0 is hit, no iteration changes where it will be. */
  lemma RemainingStep(stabs: seq<Stab>, lo: int, typ: int, c: Cursor, m: int, c': Cursor)
    requires 0 <= lo <= c.l <= c.r < |stabs| && m == LastMatch(stabs, c.l, (c.l + c.r) / 2, typ) && m <= c.r
    requires Moves(stabs, c, (c.l + c.r) / 2, m, c')
    ensures if m >= c.l && stabs[m].value == c.addr then Remaining(stabs, lo, typ, c.addr, c) == c.r
            else Remaining(stabs, lo, typ, c.addr, c') == Remaining(stabs, lo, typ, c.addr, c)
  {
    if m < c.l || stabs[m].value < c.addr {
      RemainsUp(stabs, lo, typ, c, m, c');
    } else if stabs[m].value > c.addr {
      RemainsDown(stabs, lo, typ, c, m, c');
    } else {
      HitHere(stabs, lo, c.l, c.r, typ, c.addr, m);
    }
  }

  /** c' is where the loop body takes c, having probed m. */
  predicate Moves(stabs: seq<Stab>, c: Cursor, mid: int, m: int, c': Cursor)
    requires m < |stabs| && 0 <= c.l
  {
    && (m < c.l ==> c' == c.(l := mid + 1))
    && (m >= c.l && stabs[m].value < c.addr ==> c' == c.(l := mid + 1, left := m))
    && (m >= c.l && stabs[m].value > c.addr ==> c' == c.(r := m - 1, right := m - 1))
    && (m >= c.l && stabs[m].value == c.addr ==> c' == c.(l := m, left := m, addr := (c.addr + 1) % WORD))
  }

  lemma AdvanceMoves(stabs: seq<Stab>, typ: int, c: Cursor)
    requires 0 <= c.l <= c.r < |stabs|
    ensures var mid := (c.l + c.r) / 2; var m := LastMatch(stabs, c.l, mid, typ);
            Probe(stabs, typ, c, mid, m) && Moves(stabs, c, mid, m, Advance(stabs, typ, c))
  {
    LastMatchIsLast(stabs, c.l, (c.l + c.r) / 2, typ);
  }

  lemma MoveKeeps(stabs: seq<Stab>, lo: int, hi: int, typ: int, addr0: nat, hit: int, cur: int, cur': int, c: Cursor,
                  mid: int, m: int, c': Cursor)
    requires Sorted(stabs, lo, hi, typ) && Fits(stabs, lo, hi, typ)
    requires Inv(stabs, lo, hi, typ, addr0, hit, cur, c) && Probe(stabs, typ, c, mid, m) && Moves(stabs, c, mid, m, c')
    requires c.addr == addr0 ==> if m >= c.l && stabs[m].value == addr0 then cur == c.r else cur' == cur
    ensures Inv(stabs, lo, hi, typ, addr0, hit, cur', c')
  {
    if m < c.l { Skip(stabs, lo, hi, typ, addr0, hit, cur, cur', c, mid, m, c'); }
    else if stabs[m].value < c.addr { GoRight(stabs, lo, hi, typ, addr0, hit, cur, cur', c, mid, m, c'); }
    else if stabs[m].value > c.addr { GoLeft(stabs, lo, hi, typ, addr0, hit, cur, cur', c, mid, m, c'); }
    else {
      assert Match(stabs, lo, hi, typ, m) && c.addr + 1 < WORD;
      Hit(stabs, lo, hi, typ, addr0, hit, cur, cur', c, mid, m, c');
    }
  }

  lemma {:induction false} PathInv(stabs: seq<Stab>, lo: int, hi: int, typ: int, addr0: nat, path: seq<Cursor>, k: nat)
    requires 0 <= lo && hi < |stabs| && lo - 1 <= hi && addr0 < WORD && k < |path| && IsPath(stabs, typ, path)
    requires path[0] == Cursor(lo, hi, addr0, lo, hi) && Sorted(stabs, lo, hi, typ) && Fits(stabs, lo, hi, typ)
    ensures Inv(stabs, lo, hi, typ, addr0,
                HitRight(stabs, lo, lo, hi, typ, addr0), Remaining(stabs, lo, typ, addr0, path[k]), path[k])
  {
    if k > 0 {
      PathInv(stabs, lo, hi, typ, addr0, path, k - 1);
      var c := path[k - 1];
      var mid := (c.l + c.r) / 2;
      var m := LastMatch(stabs, c.l, mid, typ);
      AdvanceMoves(stabs, typ, c);
      if c.addr == addr0 { RemainingStep(stabs, lo, typ, c, m, path[k]); }
      MoveKeeps(stabs, lo, hi, typ, addr0, HitRight(stabs, lo, lo, hi, typ, addr0),
                Remaining(stabs, lo, typ, addr0, c), Remaining(stabs, lo, typ, addr0, path[k]), c, mid, m, path[k]);
    }
  }

  lemma PathExtend(stabs: seq<Stab>, typ: int, path: seq<Cursor>, c': Cursor)
    requires |path| > 0 && IsPath(stabs, typ, path)
    requires 0 <= path[|path| - 1].l <= path[|path| - 1].r < |stabs|
    requires var c := path[|path| - 1];
             Moves(stabs, c, (c.l + c.r) / 2, LastMatch(stabs, c.l, (c.l + c.r) / 2, typ), c')
    ensures IsPath(stabs, typ, path + [c'])
  {
    var c := path[|path| - 1];
    assert c' == Advance(stabs, typ, c);
  }

  /** The search loop, with the path of cursors it went through. */
  method Search(stabs: seq<Stab>, lo: int, hi: int, typ: int, addr0: nat)
    returns (left: int, right: int, any: bool, ghost path: seq<Cursor>)
    requires 0 <= lo && hi < |stabs| && lo - 1 <= hi && addr0 < WORD
    ensures |path| > 0 && path[0] == Cursor(lo, hi, addr0, lo, hi) && IsPath(stabs, typ, path)
    ensures var c := path[|path| - 1]; c.l > c.r && c.left == left && c.right == right
    ensures any ==> exists i :: Match(stabs, lo, hi, typ, i)
    ensures !any ==> left == lo && forall i :: !Match(stabs, lo, hi, typ, i)
    ensures right < |stabs| && left >= 0
  {
    left, right := lo, hi;
    var l, r := lo, hi;
    var addr: nat := addr0;
    any := false;
    path := [Cursor(l, r, addr, left, right)];
    while l <= r
      invariant lo <= l && r <= hi && l - 1 <= r && r <= right < |stabs| && left >= 0 && addr < WORD
      invariant |path| > 0 && path[0] == Cursor(lo, hi, addr0, lo, hi) && IsPath(stabs, typ, path)
      invariant path[|path| - 1] == Cursor(l, r, addr, left, right)
      invariant any ==> exists i :: Match(stabs, lo, hi, typ, i)
      invariant !any ==> left == lo && r == hi && forall i :: i < l ==> !Match(stabs, lo, hi, typ, i)
      decreases r - l + 1, if l < |stabs| && stabs[l].value == addr then 1 else 0
    {
      ghost var c := Cursor(l, r, addr, left, right);
      var mid := (l + r) / 2;
      var m := PrevMatch(stabs, l, mid, typ);
      LastMatchIsLast(stabs, l, mid, typ);
      if m < l {
        l := mid + 1;
      } else {
        any := true;
        assert Match(stabs, lo, hi, typ, m);
        if stabs[m].value < addr {
          left := m;
          l := mid + 1;
        } else if stabs[m].value > addr {
          right := m - 1;
          r := m - 1;
        } else {
          left := m;
          l := m;
          addr := (addr + 1) % WORD;
        }
      }
      ghost var c' := Cursor(l, r, addr, left, right);
      PathExtend(stabs, typ, path, c');
      path := path + [c'];
    }
  }

  /** The bracket found is always a whole stab interval.  It is the one containing addr if
      and only if no stab with value addr + 1 was still in range when addr was first hit.
      With nothing at or below addr, the bracket ends before the first match. */
  method StabBinsearch(stabs: seq<Stab>, lo: int, hi: int, typ: int, addr0: nat) returns (left: int, right: int)
    requires 0 <= lo && hi < |stabs| && lo - 1 <= hi && addr0 < WORD
    ensures (forall i :: !Match(stabs, lo, hi, typ, i)) ==> left == lo && right == lo - 1
    ensures Sorted(stabs, lo, hi, typ) && Fits(stabs, lo, hi, typ) && Any(stabs, lo, hi, typ, addr0) ==>
              && Match(stabs, lo, hi, typ, left) && EndsBeforeNext(stabs, lo, hi, typ, left, right)
              && (Contains(stabs, lo, hi, typ, addr0, left) <==> !Successor(stabs, lo, hi, typ, addr0))
    ensures Sorted(stabs, lo, hi, typ) && Fits(stabs, lo, hi, typ) && !Any(stabs, lo, hi, typ, addr0) ==>
              forall k :: Match(stabs, lo, hi, typ, k) ==>
                right < hi && Match(stabs, lo, hi, typ, right + 1) && left == (if right < lo then right else lo)
  {
    var any;
    ghost var path;
    left, right, any, path := Search(stabs, lo, hi, typ, addr0);
    if !any {
      right := left - 1;
    } else {
      var l := right;
      while l > left && stabs[l].typ != typ
        invariant l <= right && (l < left ==> l == right)
        invariant forall i :: l < i <= right ==> !Match(stabs, lo, hi, typ, i)
      {
        l := l - 1;
      }
      if Sorted(stabs, lo, hi, typ) && Fits(stabs, lo, hi, typ) {
        Outcome(stabs, lo, hi, typ, addr0, path, l);
      }
      left := l;
    }
  }

  /** The end of a path, read off its invariant. */
  lemma Outcome(stabs: seq<Stab>, lo: int, hi: int, typ: int, addr0: nat, path: seq<Cursor>, l: int)
    requires 0 <= lo && hi < |stabs| && lo - 1 <= hi && addr0 < WORD && |path| > 0 && IsPath(stabs, typ, path)
    requires path[0] == Cursor(lo, hi, addr0, lo, hi) && Sorted(stabs, lo, hi, typ) && Fits(stabs, lo, hi, typ)
    requires var c := path[|path| - 1];
             && c.l > c.r && l <= c.right < |stabs| && (l < c.left ==>
                   l == c.right) && (l > c.left >= 0 ==> stabs[l].typ == typ)
             && forall i :: l < i <= c.right ==> !Match(stabs, lo, hi, typ, i)
    ensures var right := path[|path| - 1].right;
            && (Any(stabs, lo, hi, typ, addr0) ==>
                  && Match(stabs, lo, hi, typ, l) && EndsBeforeNext(stabs, lo, hi, typ, l, right)
                  && (Contains(stabs, lo, hi, typ, addr0, l) <==> !Successor(stabs, lo, hi, typ, addr0)))
            && (!Any(stabs, lo, hi, typ, addr0) ==>
                  forall k :: Match(stabs, lo, hi, typ, k) ==>
                    right < hi && Match(stabs, lo, hi, typ, right + 1) && l == (if right < lo then right else lo))
  {
    var c := path[|path| - 1];
    PathInv(stabs, lo, hi, typ, addr0, path, |path| - 1);
    var hit, cur := HitRight(stabs, lo, lo, hi, typ, addr0), Remaining(stabs, lo, typ, addr0, c);
    OutcomeOf(stabs, lo, hi, typ, addr0, hit, cur, c, l);
  }

  lemma OutcomeOf(stabs: seq<Stab>, lo: int, hi: int, typ: int, addr0: nat, hit: int, cur: int, c: Cursor, l: int)
    requires Inv(stabs, lo, hi, typ, addr0, hit, cur, c) && Sorted(stabs, lo, hi, typ)
    requires c.l > c.r && l <= c.right && (l < c.left ==> l == c.right) && (l > c.left >= 0 ==> stabs[l].typ == typ)
    requires cur == lo - 1
    requires forall i :: l < i <= c.right ==> !Match(stabs, lo, hi, typ, i)
    ensures Any(stabs, lo, hi, typ, addr0) ==>
              && Match(stabs, lo, hi, typ, l) && EndsBeforeNext(stabs, lo, hi, typ, l, c.right)
              && (Contains(stabs, lo, hi, typ, addr0, l) <==> !NextAddr(stabs, lo, hi, typ, addr0, hit))
    ensures !Any(stabs, lo, hi, typ, addr0) ==>
              forall k :: Match(stabs, lo, hi, typ, k) ==>
                c.right < hi && Match(stabs, lo, hi, typ, c.right + 1) && l == (if c.right < lo then c.right else lo)
  {
    if Any(stabs, lo, hi, typ, addr0) {
      var a :| Match(stabs, lo, hi, typ, a) && stabs[a].value <= addr0;
      assert a <= c.r && c.left <= c.right;
      Done(stabs, lo, hi, typ, addr0, hit, cur, c, l);
    } else {
      forall k | Match(stabs, lo, hi, typ, k)
        ensures c.right < hi && Match(stabs, lo, hi, typ, c.right + 1) && l == (if c.right < lo then c.right else lo)
      {
        NoneBelow(stabs, lo, hi, typ, addr0, hit, cur, c, k);
      }
    }
  }

  /** The inner loop: walk down from m to a stab of the right type. */
  method PrevMatch(stabs: seq<Stab>, l: int, mid: int, typ: int) returns (m: int)
    requires 0 <= l && mid < |stabs| && l - 1 <= mid
    ensures m == LastMatch(stabs, l, mid, typ)
  {
    m := mid;
    while m >= l && stabs[m].typ != typ
      invariant l - 1 <= m <= mid && LastMatch(stabs, l, mid, typ) == LastMatch(stabs, l, m, typ)
    {
      m := m - 1;
    }
  }

  /** The failing family is real: for addr 5 with stabs at 5 and 6 the search returns the wrong one. */
  lemma AdjacentAddressesMislead()
    ensures var stabs := [Stab(0, 5), Stab(0, 6)];
            && Sorted(stabs, 0, 1, 0) && Fits(stabs, 0, 1, 0) && Any(stabs, 0, 1, 0, 5)
            && Successor(stabs, 0, 1, 0, 5)
  {
    var stabs := [Stab(0, 5), Stab(0, 6)];
    assert Match(stabs, 0, 1, 0, 0) && Match(stabs, 0, 1, 0, 1);
    assert LastMatch(stabs, 0, 0, 0) == 0;
    assert HitRight(stabs, 0, 0, 1, 0, 5) == 1;
  }

  /** So it does: the stab it returns there is not the one that contains the address. */
  method SearchMisled() returns (left: int, right: int)
    ensures var stabs := [Stab(0, 5), Stab(0, 6)]; Match(stabs, 0, 1, 0, left) && !Contains(stabs, 0, 1, 0, 5, left)
  {
    AdjacentAddressesMislead();
    left, right := StabBinsearch([Stab(0, 5), Stab(0, 6)], 0, 1, 0, 5);
  }

  /** In particular the search is right whenever no stab has value addr + 1. */
  lemma NoNeighbourNoSuccessor(stabs: seq<Stab>, lo: int, hi: int, typ: int, addr: nat)
    requires 0 <= lo && hi < |stabs| && lo - 1 <= hi
    requires forall i :: Match(stabs, lo, hi, typ, i) ==> stabs[i].value != addr + 1
    ensures !Successor(stabs, lo, hi, typ, addr)
  {}
}
