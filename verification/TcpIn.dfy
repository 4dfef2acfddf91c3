/** tcp_receive() and its callers in tcp_in.c / tcp.c as the code runs them: 32-bit sequence
    numbers, 16-bit windows, queues edited in place. The ghost field `rx` carries the
    unbounded positions; every method is proved to compute the functions of TcpReceive. */
module TcpIn {
  import opened SeqNum
  import R = TcpReceive

  /** A received tcp_seg; the payload stands for the pbuf chain, `len` is its length. */
  datatype TcpSeg = TcpSeg(seqno: u32, data: seq<byte>, fin: bool) {
    function TcpLen(): int { |data| + if fin then 1 else 0 }
  }

  datatype TcpState = Established | FinWait1 | FinWait2 | CloseWait | Closing | LastAck | TimeWait {
    /** `pcb->state < CLOSE_WAIT` */
    predicate TakesText() { Established? || FinWait1? || FinWait2? }
  }

  /** The longest stretch of sequence space the queue can span beyond rcv_nxt. */
  const SPAN: int := 0x2_0000

  ghost function At(irs: int, pos: int): u32 { Wrap(irs + pos) }

  ghost predicate Matches(c: TcpSeg, s: R.Segment, irs: int) {
    c.seqno == At(irs, s.pos) && c.data == s.data && c.fin == s.fin && |c.data| < 0x1_0000
  }

  ghost predicate MatchesAll(cs: seq<TcpSeg>, ss: seq<R.Segment>, irs: int) {
    |cs| == |ss| && forall i :: 0 <= i < |cs| ==> Matches(cs[i], ss[i], irs)
  }

  lemma {:induction false} Compare(irs: int, x: int, y: int)
    requires -HALF32 <= x - y < HALF32
    ensures Diff(At(irs, x), At(irs, y)) == x - y
  {
    DiffExact(irs + x, irs + y);
  }

  lemma {:induction false} Advance(irs: int, x: int, k: int)
    ensures Wrap(At(irs, x) + k) == At(irs, x + k)
  {
    WrapAdd(irs + x, k);
  }

  /** Differences of nearby wrapped numbers are exact after reduction. */
  lemma {:induction false} Distance(irs: int, x: int, y: int)
    requires 0 <= x - y < M32
    ensures Wrap(At(irs, x) - At(irs, y)) == x - y
  {
    var a, b := irs + x, irs + y;
    assert a == M32 * (a / M32) + Wrap(a) && b == M32 * (b / M32) + Wrap(b);
    WrapOfSum(Wrap(a) - Wrap(b), a / M32 - b / M32);
    assert a - b == Wrap(a) - Wrap(b) + M32 * (a / M32 - b / M32);
  }

  /** Everything the comparisons below see lies within half the sequence space. */
  ghost predicate Near(q: seq<R.Segment>, base: int) {
    forall i :: 0 <= i < |q| ==> base <= q[i].pos && q[i].Top() <= base + 2 * SPAN
  }

  /** tcp_oos_insert_segment(); `seqno` of the C globals is cseg's own. */
  method OosInsertSegment(cseg: TcpSeg, next: seq<TcpSeg>, ghost c: R.Segment, ghost rest: seq<R.Segment>, ghost irs: int)
    returns (q: seq<TcpSeg>)
    requires Matches(cseg, c, irs) && MatchesAll(next, rest, irs)
    requires R.Ordered(rest, c.pos) && c.Top() <= c.pos + 2 * SPAN && Near(rest, c.pos)
    ensures MatchesAll(q, R.Absorb(c, rest), irs)
  {
    if cseg.fin {
      return [cseg];
    }
    var cs, nx := cseg, next;
    ghost var ca, ra := c, rest;
    while nx != [] && SeqGeq(Wrap(cs.seqno + |cs.data|), Wrap(nx[0].seqno + |nx[0].data|))
      invariant Matches(cs, ca, irs) && MatchesAll(nx, ra, irs) && R.Ordered(ra, c.pos) && Near(ra, c.pos)
      invariant ca.pos == c.pos && ca.data == c.data
      invariant ca.fin ==> ra == []
      invariant R.Absorb(ca, ra) == R.Absorb(c, rest)
      decreases |nx|
    {
      CompareEnds(cs, nx[0], ca, ra[0], irs);
      assert ra[1..] == [] || c.pos <= ra[1..][0].pos;
      R.OrderedFrom(ra[1..], ra[0].Top(), c.pos);
      if nx[0].fin {
        cs := cs.(fin := true);
      }
      ca, ra := ca.(fin := ra[0].fin), ra[1..];
      nx := nx[1..];
    }
    if nx == [] {
      return [cs];
    }
    CompareEnds(cs, nx[0], ca, ra[0], irs);
    cs := TrimSeg(cs, nx[0].seqno, ca, ra[0].pos, irs);
    q := [cs] + nx;
    assert R.Absorb(ca, ra) == [R.TrimEnd(ca, ra[0].pos)] + ra;
  }

  /** Shortens a segment that reaches beyond `at` so that it ends there. */
  method TrimSeg(seg: TcpSeg, at: u32, ghost s: R.Segment, ghost pos: int, ghost irs: int) returns (r: TcpSeg)
    requires Matches(seg, s, irs) && at == At(irs, pos) && s.pos <= pos <= s.pos + 2 * SPAN
    ensures Matches(r, R.TrimEnd(s, pos), irs)
  {
    r := seg;
    Advance(irs, s.pos, |seg.data|);
    Compare(irs, s.End(), pos);
    if SeqGt(Wrap(seg.seqno + |seg.data|), at) {
      Distance(irs, pos, s.pos);
      var len := Wrap(at - seg.seqno) % 0x1_0000;
      r := r.(data := seg.data[..len]);
    }
  }

  lemma {:induction false} CompareEnds(a: TcpSeg, b: TcpSeg, s: R.Segment, t: R.Segment, irs: int)
    requires Matches(a, s, irs) && Matches(b, t, irs) && -HALF32 <= s.End() - t.End() < HALF32
    ensures Diff(Wrap(a.seqno + |a.data|), Wrap(b.seqno + |b.data|)) == s.End() - t.End()
  {
    Advance(irs, s.pos, |a.data|);
    Advance(irs, t.pos, |b.data|);
    Compare(irs, s.End(), t.End());
  }

  /** Trimming to the right window edge; the FIN goes with the excess. */
  method ClipSeg(seg: TcpSeg, edge: u32, ghost s: R.Segment, ghost edgePos: int, ghost irs: int) returns (r: TcpSeg)
    requires Matches(seg, s, irs) && edge == At(irs, edgePos) && s.pos <= edgePos <= s.pos + 2 * SPAN
    ensures Matches(r, R.ClipToWindow(s, edgePos), irs)
  {
    hide Wrap, Diff;
    r := seg;
    Advance(irs, s.pos, seg.TcpLen());
    Compare(irs, s.Top(), edgePos);
    if SeqGt(Wrap(seg.TcpLen() + seg.seqno), edge) {
      Distance(irs, edgePos, s.pos);
      var len := Wrap(edge - seg.seqno) % 0x1_0000;
      r := TcpSeg(seg.seqno, seg.data[..len], false);
    }
  }

  /** The part of the search that is still to do, after `i` queue elements were passed. */
  ghost predicate Searching(q: seq<R.Segment>, s: R.Segment, edge: int, i: int) {
    && 0 <= i < |q| && (i > 0 ==> q[i - 1].pos < s.pos)
    && (i == 0 || R.Place(q, s, edge) == q[..i - 1] + R.Place(q[i - 1..], s, edge))
  }

  lemma {:induction false} SearchStep(q: seq<R.Segment>, s: R.Segment, edge: int, i: int, lo: int)
    requires R.Ordered(q, lo) && Searching(q, s, edge, i) && q[i].pos <= s.pos
    ensures R.Place(q, s, edge) == q[..i] + R.Place(q[i..], s, edge)
    ensures i + 1 < |q| && q[i].pos < s.pos ==> Searching(q, s, edge, i + 1)
  {
    if i > 0 {
      var t := q[i - 1..];
      assert t[1] == q[i] && t[1..] == q[i..] && t[0] == q[i - 1];
      assert q[..i - 1] + ([q[i - 1]] + R.Place(q[i..], s, edge)) == q[..i] + R.Place(q[i..], s, edge);
    } else {
      assert q[0..] == q;
    }
  }

  lemma {:induction false} OrderedSuffix(q: seq<R.Segment>, lo: int, i: int)
    requires R.Ordered(q, lo) && 0 <= i < |q|
    ensures R.Ordered(q[i..], q[i].pos)
    ensures i > 0 ==> R.Ordered(q[i..], q[i - 1].Top())
  {
    if i == 0 {
      assert q[0..] == q;
      R.OrderedFrom(q, lo, q[0].pos);
    } else {
      OrderedSuffix(q[1..], q[0].Top(), i - 1);
      assert q[1..][i - 1..] == q[i..];
      if i == 1 { assert q[1..] == q[i..]; }
    }
  }

  lemma {:induction false} MatchesSuffix(cs: seq<TcpSeg>, ss: seq<R.Segment>, irs: int, i: int)
    requires MatchesAll(cs, ss, irs) && 0 <= i <= |cs|
    ensures MatchesAll(cs[i..], ss[i..], irs) && MatchesAll(cs[..i], ss[..i], irs)
  {
  }

  lemma {:induction false} MatchesJoin(cs: seq<TcpSeg>, ss: seq<R.Segment>, bs: seq<TcpSeg>, ts: seq<R.Segment>, irs: int)
    requires MatchesAll(cs, ss, irs) && MatchesAll(bs, ts, irs)
    ensures MatchesAll(cs + bs, ss + ts, irs)
  {
  }

  /** The insertion of a new segment before element `i` (which may start at its own position). */
  method InsertBefore(queue: seq<TcpSeg>, inseg: TcpSeg, i: nat,
                      ghost q: seq<R.Segment>, ghost s: R.Segment, ghost lo: int, ghost irs: int)
    returns (out: seq<TcpSeg>)
    requires MatchesAll(queue, q, irs) && Matches(inseg, s, irs) && R.Ordered(q, lo) && Near(q, lo)
    requires i < |q| && lo <= s.pos <= q[i].pos
    ensures MatchesAll(out, q[..i] + R.Absorb(s, q[i..]), irs)
  {
    OrderedSuffix(q, lo, i);
    R.OrderedFrom(q[i..], q[i].pos, s.pos);
    MatchesSuffix(queue, q, irs, i);
    forall k | 0 <= k < |q[i..]| ensures s.pos <= q[i..][k].pos && q[i..][k].Top() <= s.pos + 2 * SPAN {
      R.OrderedAbove(q[i..], s.pos, k);
      assert q[i..][k] == q[i + k];
    }
    var rest := OosInsertSegment(inseg, queue[i..], s, q[i..], irs);
    MatchesJoin(queue[..i], q[..i], rest, R.Absorb(s, q[i..]), irs);
    out := queue[..i] + rest;
  }

  lemma {:induction false} CompareBetween(irs: int, x: int, y: int, z: int)
    requires -SPAN <= y - x <= 2 * SPAN && -SPAN <= z - y <= 2 * SPAN
    ensures SeqBetween(At(irs, y), Wrap(At(irs, x) + 1), Wrap(At(irs, z) - 1)) <==> x < y < z
  {
    Advance(irs, x, 1);
    Advance(irs, z, -1);
    Compare(irs, y, x + 1);
    Compare(irs, y, z - 1);
  }

  /** Everything known during the walk over the queue. */
  ghost predicate Walking(queue: seq<TcpSeg>, inseg: TcpSeg, i: int,
                          q: seq<R.Segment>, s: R.Segment, edgePos: int, lo: int, irs: int) {
    && MatchesAll(queue, q, irs) && Matches(inseg, s, irs)
    && R.Ordered(q, lo) && Near(q, lo) && lo <= s.pos < edgePos < lo + SPAN
    && Searching(q, s, edgePos, i)
  }

  /** Same sequence number: the longer segment wins. */
  method ReplaceAt(queue: seq<TcpSeg>, inseg: TcpSeg, i: nat,
                   ghost q: seq<R.Segment>, ghost s: R.Segment, ghost edgePos: int, ghost lo: int, ghost irs: int)
    returns (out: seq<TcpSeg>)
    requires Walking(queue, inseg, i, q, s, edgePos, lo, irs) && q[i].pos == s.pos
    ensures MatchesAll(out, R.Place(q, s, edgePos), irs)
  {
    SearchStep(q, s, edgePos, i, lo);
    if |inseg.data| > |queue[i].data| {
      out := InsertBefore(queue, inseg, i, q, s, lo, irs);
    } else {
      out := queue;
      assert q[..i] + q[i..] == q;
    }
  }

  /** Between prev and next: prev is cut, what follows is absorbed. */
  method PutBetween(queue: seq<TcpSeg>, inseg: TcpSeg, i: nat,
                    ghost q: seq<R.Segment>, ghost s: R.Segment, ghost edgePos: int, ghost lo: int, ghost irs: int)
    returns (out: seq<TcpSeg>)
    requires Walking(queue, inseg, i, q, s, edgePos, lo, irs) && 0 < i && q[i - 1].pos < s.pos < q[i].pos
    ensures MatchesAll(out, R.Place(q, s, edgePos), irs)
  {
    var prev := TrimSeg(queue[i - 1], inseg.seqno, q[i - 1], s.pos, irs);
    out := InsertBefore(queue, inseg, i, q, s, lo, irs);
    out := SpliceTrimmed(out, prev, i, q, s, edgePos, irs);
  }

  /** One turn of the walk: does the segment belong at or right before element `i`? */
  method TryInsertAt(queue: seq<TcpSeg>, inseg: TcpSeg, i: nat,
                     ghost q: seq<R.Segment>, ghost s: R.Segment, ghost edgePos: int, ghost lo: int, ghost irs: int)
    returns (done: bool, out: seq<TcpSeg>)
    requires Walking(queue, inseg, i, q, s, edgePos, lo, irs)
    ensures done ==> MatchesAll(out, R.Place(q, s, edgePos), irs)
    ensures !done ==> out == queue && q[i].pos < s.pos
  {
    done, out := true, queue;
    Compare(irs, s.pos, q[i].pos);
    if inseg.seqno == queue[i].seqno {
      out := ReplaceAt(queue, inseg, i, q, s, edgePos, lo, irs);
    } else if i == 0 {
      done := SeqLt(inseg.seqno, queue[0].seqno);
      if done {
        out := InsertBefore(queue, inseg, 0, q, s, lo, irs);
        assert q[..0] + R.Absorb(s, q[0..]) == R.Absorb(s, q) by { assert q[0..] == q; }
      }
    } else {
      CompareBetween(irs, q[i - 1].pos, s.pos, q[i].pos);
      done := SeqBetween(inseg.seqno, Wrap(queue[i - 1].seqno + 1), Wrap(queue[i].seqno - 1));
      if done {
        out := PutBetween(queue, inseg, i, q, s, edgePos, lo, irs);
      }
    }
  }

  /** The incoming segment goes to the end of the list, unless that already holds the FIN. */
  method AppendLast(queue: seq<TcpSeg>, inseg: TcpSeg, edge: u32,
                    ghost q: seq<R.Segment>, ghost s: R.Segment, ghost edgePos: int, ghost lo: int, ghost irs: int)
    returns (out: seq<TcpSeg>)
    requires Walking(queue, inseg, |q| - 1, q, s, edgePos, lo, irs) && q[|q| - 1].pos < s.pos
    requires edge == At(irs, edgePos)
    ensures MatchesAll(out, R.Place(q, s, edgePos), irs)
  {
    var i := |queue| - 1;
    SearchStep(q, s, edgePos, i, lo);
    if queue[i].fin {
      out := queue;
      assert q[..i] + q[i..] == q;
    } else {
      var last := TrimSeg(queue[i], inseg.seqno, q[i], s.pos, irs);
      var added := ClipSeg(inseg, edge, s, edgePos, irs);
      out := queue[..i] + [last, added];
      assert R.Place(q[i..], s, edgePos) == [R.TrimEnd(q[i], s.pos), R.ClipToWindow(s, edgePos)];
    }
  }

  /** The walk over pcb->ooseq; tcp_seg_copy() succeeds iff `memOk`. */
  method QueueOoseq(queue: seq<TcpSeg>, inseg: TcpSeg, edge: u32, memOk: bool,
                    ghost q: seq<R.Segment>, ghost s: R.Segment, ghost edgePos: int, ghost lo: int, ghost irs: int)
    returns (out: seq<TcpSeg>)
    requires MatchesAll(queue, q, irs) && Matches(inseg, s, irs) && edge == At(irs, edgePos)
    requires queue != [] && R.Ordered(q, lo) && Near(q, lo) && lo <= s.pos < edgePos < lo + SPAN
    ensures MatchesAll(out, if memOk then R.Place(q, s, edgePos) else q, irs)
  {
    hide R.Place, R.Ordered, Walking, Searching, Near, MatchesAll, Matches, Wrap, Diff;
    out := queue;
    if !memOk {
      return;
    }
    var i := 0;
    WalkStart(queue, inseg, q, s, edgePos, lo, irs);
    while true
      invariant Walking(queue, inseg, i, q, s, edgePos, lo, irs) && out == queue
      decreases |queue| - i
    {
      WalkFacts(queue, inseg, i, q, s, edgePos, lo, irs);
      var done;
      done, out := TryInsertAt(queue, inseg, i, q, s, edgePos, lo, irs);
      if done {
        return;
      }
      Compare(irs, s.pos, q[i].pos);
      if i == |queue| - 1 && SeqGt(inseg.seqno, queue[i].seqno) {
        out := AppendLast(queue, inseg, edge, q, s, edgePos, lo, irs);
        return;
      }
      WalkStep(queue, inseg, i, q, s, edgePos, lo, irs);
      i := i + 1;
    }
  }

  lemma {:induction false} WalkStart(queue: seq<TcpSeg>, inseg: TcpSeg, q: seq<R.Segment>, s: R.Segment, edgePos: int, lo: int, irs: int)
    requires MatchesAll(queue, q, irs) && Matches(inseg, s, irs) && queue != []
    requires R.Ordered(q, lo) && Near(q, lo) && lo <= s.pos < edgePos < lo + SPAN
    ensures Walking(queue, inseg, 0, q, s, edgePos, lo, irs)
  {
  }

  lemma {:induction false} WalkFacts(queue: seq<TcpSeg>, inseg: TcpSeg, i: int, q: seq<R.Segment>, s: R.Segment, edgePos: int, lo: int, irs: int)
    requires Walking(queue, inseg, i, q, s, edgePos, lo, irs)
    ensures 0 <= i < |q| == |queue| && queue[i].seqno == At(irs, q[i].pos) && inseg.seqno == At(irs, s.pos)
    ensures -HALF32 <= s.pos - q[i].pos < HALF32
  {
    hide R.Ordered, R.Place;
  }

  lemma {:induction false} WalkStep(queue: seq<TcpSeg>, inseg: TcpSeg, i: int, q: seq<R.Segment>, s: R.Segment, edgePos: int, lo: int, irs: int)
    requires Walking(queue, inseg, i, q, s, edgePos, lo, irs) && q[i].pos < s.pos && i + 1 < |q|
    ensures Walking(queue, inseg, i + 1, q, s, edgePos, lo, irs)
  {
    hide R.Ordered, R.Place;
    SearchStep(q, s, edgePos, i, lo);
  }

  /** The queue with prev, cut short, in front of what was inserted behind it. */
  method SpliceTrimmed(queue: seq<TcpSeg>, prev: TcpSeg, i: nat,
                       ghost q: seq<R.Segment>, ghost s: R.Segment, ghost edgePos: int, ghost irs: int)
    returns (out: seq<TcpSeg>)
    requires 0 < i < |q| && q[i - 1].pos < s.pos < q[i].pos && Searching(q, s, edgePos, i)
    requires MatchesAll(queue, q[..i] + R.Absorb(s, q[i..]), irs)
    requires Matches(prev, R.TrimEnd(q[i - 1], s.pos), irs)
    ensures MatchesAll(out, R.Place(q, s, edgePos), irs)
  {
    out := queue[i - 1 := prev];
    var t := q[i - 1..];
    assert t[1] == q[i] && t[1..] == q[i..] && t[0] == q[i - 1];
    assert R.Place(t, s, edgePos) == [R.TrimEnd(q[i - 1], s.pos)] + R.Absorb(s, q[i..]);
    assert q[..i - 1] + ([R.TrimEnd(q[i - 1], s.pos)] + R.Absorb(s, q[i..]))
        == (q[..i] + R.Absorb(s, q[i..]))[i - 1 := R.TrimEnd(q[i - 1], s.pos)];
  }

  /** Binning or trimming against the queue when the segment is the next in sequence:
      the loop compares with tcplen, which an absorbed FIN makes one larger. */
  method AbsorbInOrder(inseg: TcpSeg, ooseq: seq<TcpSeg>, ghost s: R.Segment, ghost q: seq<R.Segment>, ghost irs: int)
    returns (seg: TcpSeg, next: seq<TcpSeg>)
    requires Matches(inseg, s, irs) && MatchesAll(ooseq, q, irs)
    requires R.Ordered(q, s.pos) && s.Top() <= s.pos + 2 * SPAN && Near(q, s.pos)
    ensures MatchesAll([seg] + next, R.Absorb(s, q), irs)
  {
    seg, next := inseg, ooseq;
    if ooseq == [] || inseg.fin {
      next := [];
      return;
    }
    ghost var sa, qa := s, q;
    var tcplen := seg.TcpLen();
    while next != [] && SeqGeq(Wrap(seg.seqno + tcplen), Wrap(next[0].seqno + |next[0].data|))
      invariant Matches(seg, sa, irs) && MatchesAll(next, qa, irs) && R.Ordered(qa, s.pos) && Near(qa, s.pos)
      invariant sa.pos == s.pos && sa.data == s.data && tcplen == sa.TcpLen()
      invariant sa.fin ==> qa == []
      invariant R.Absorb(sa, qa) == R.Absorb(s, q)
      decreases |next|
    {
      CompareEnds(seg, next[0], sa, qa[0], irs);
      assert qa[1..] == [] || s.pos <= qa[1..][0].pos;
      R.OrderedFrom(qa[1..], qa[0].Top(), s.pos);
      if next[0].fin {
        seg := seg.(fin := true);
        tcplen := seg.TcpLen();
      }
      sa, qa := sa.(fin := qa[0].fin), qa[1..];
      next := next[1..];
    }
    if next != [] {
      CompareEnds(seg, next[0], sa, qa[0], irs);
      seg := TrimSeg(seg, next[0].seqno, sa, qa[0].pos, irs);
      assert R.Absorb(sa, qa) == [R.TrimEnd(sa, qa[0].pos)] + qa;
    }
  }

  /** Neither branch of tcp_receive() lets the queue grow beyond a bound it already had. */
  lemma {:induction false} AbsorbBounded(c: R.Segment, q: seq<R.Segment>, stream: seq<byte>, bound: int)
    requires R.CanAbsorb(c, q, stream) && R.QueueInWindow(q, bound) && c.Top() <= bound
    ensures R.QueueInWindow(R.Absorb(c, q), bound)
  {
    R.AbsorbOrdered(c, q, stream);
    forall x | R.Covers(R.Absorb(c, q), x) ensures x < bound {
      R.AbsorbCovers(c, q, stream, x);
    }
    R.QueueInWindowByPosition(R.Absorb(c, q), c.pos, bound);
  }

  lemma {:induction false} EnqueueBounded(q: seq<R.Segment>, s: R.Segment, edge: int, stream: seq<byte>, lo: int, bound: int)
    requires R.CanPlace(q, s, edge, stream, lo) && R.QueueInWindow(q, bound) && s.Top() <= bound
    ensures R.QueueInWindow(R.Enqueue(q, s, edge), bound)
  {
    if q != [] {
      R.PlaceOrdered(q, s, edge, stream, lo);
      forall x | R.Covers(R.Place(q, s, edge), x) ensures x < bound {
        R.PlaceCovers(q, s, edge, stream, lo, x);
      }
      R.QueueInWindowByPosition(R.Place(q, s, edge), lo, bound);
    }
  }

  /** Draining only lowers the window, so the assertion in the loop fails iff it ends negative. */
  lemma {:induction false} DrainLowersWnd(r: R.Rx)
    ensures R.Drain(r).wnd <= r.wnd
    decreases |r.ooseq|
  {
    if r.ooseq != [] && r.ooseq[0].pos == r.nxt {
      DrainLowersWnd(R.TakeHead(r));
    }
  }

  lemma {:induction false} ConcatAssoc(a: seq<byte>, b: seq<byte>, c: seq<byte>)
    ensures a + (b + c) == (a + b) + c
  {
  }

  lemma {:induction false} ReceiveKeepsEdge(r: R.Rx, a: R.Segment, memOk: bool, step: nat, stream: seq<byte>)
    requires R.Inv(r, stream) && R.EdgeInv(r) && R.Cut(a, stream)
    ensures R.Receive(r, a, memOk, step).wnd >= 0 ==> R.EdgeInv(R.Receive(r, a, memOk, step))
  {
    R.ReceiveKeepsInv(r, a, memOk, step, stream);
  }

  /** The state machine of tcp_process() once the SYN is acknowledged; `acksAll` is
      "ACK set, ackno == snd_nxt and nothing unsent". LAST_ACK leaves by TF_CLOSED. */
  function NextState(s: TcpState, gotFin: bool, acksAll: bool): TcpState {
    match s
    case Established => if gotFin then CloseWait else s
    case FinWait1 => if gotFin then (if acksAll then TimeWait else Closing) else if acksAll then FinWait2 else s
    case FinWait2 => if gotFin then TimeWait else s
    case Closing => if acksAll then TimeWait else s
    case _ => s
  }

  /** What a state says of the two FINs. */
  datatype Fins = Fins(received: bool, sent: bool, acked: bool)

  function FinsOf(s: TcpState): Fins {
    match s
    case Established => Fins(false, false, false)
    case CloseWait => Fins(true, false, false)
    case FinWait1 => Fins(false, true, false)
    case FinWait2 => Fins(false, true, true)
    case Closing => Fins(true, true, false)
    case LastAck => Fins(true, true, false)
    case TimeWait => Fins(true, true, true)
  }

  /** Each FIN is noted when it arrives and ours when it is acknowledged, in either order; nothing is forgotten, and
      LAST_ACK alone, which TF_CLOSED ends, waits. */
  lemma {:induction false} NextStateExact(s: TcpState, gotFin: bool, acksAll: bool)
    requires gotFin ==> s.TakesText()
    ensures var s' := NextState(s, gotFin, acksAll);
      && FinsOf(s').received == (FinsOf(s).received || gotFin) && FinsOf(s').sent == FinsOf(s).sent
      && (s != LastAck ==> FinsOf(s').acked == (FinsOf(s).acked || (FinsOf(s).sent && acksAll)))
      && (s' == LastAck <==> s == LastAck)
  {
  }

  /** Apart from who was first to close, the FINs determine the state. */
  lemma {:induction false} FinsDetermine(s: TcpState, s': TcpState)
    ensures FinsOf(s) == FinsOf(s') && (s == LastAck <==> s' == LastAck) <==> s == s'
  {
  }

  /** What is reassembled and queued does not depend on the window. */
  lemma {:induction false} WindowKeepsInv(rx: R.Rx, rx': R.Rx, stream: seq<byte>)
    requires R.Inv(rx, stream) && rx'.nxt == rx.nxt && rx'.delivered == rx.delivered
    requires rx'.gotFin == rx.gotFin && rx'.ooseq == rx.ooseq
    ensures R.Inv(rx', stream)
  {
  }

  lemma {:induction false} EnqueueFacts(rx: R.Rx, s: R.Segment, stream: seq<byte>)
    requires R.Inv(rx, stream) && R.EdgeInv(rx) && R.QueueInWindow(rx.ooseq, rx.nxt + SPAN) && R.Cut(s, stream) && s.TcpLen() > 0
    requires rx.nxt < s.pos < rx.nxt + rx.wnd && s.Top() <= rx.nxt + SPAN
    ensures R.Ordered(rx.ooseq, rx.nxt + 1) && Near(rx.ooseq, rx.nxt + 1)
    ensures R.Inv(rx.(ooseq := R.Enqueue(rx.ooseq, s, rx.nxt + rx.wnd)), stream)
    ensures R.QueueInWindow(R.Enqueue(rx.ooseq, s, rx.nxt + rx.wnd), rx.nxt + SPAN)
  {
    R.EnqueueKeepsInv(rx, s, stream);
    EnqueueBounded(rx.ooseq, s, rx.nxt + rx.wnd, stream, rx.nxt + 1, rx.nxt + SPAN);
    forall i | 0 <= i < |rx.ooseq| ensures rx.nxt + 1 <= rx.ooseq[i].pos { R.OrderedAbove(rx.ooseq, rx.nxt + 1, i); }
  }

  /** The in-sequence branch, before anything is handed up. */
  lemma {:induction false} SettleFacts(rx: R.Rx, s: R.Segment, stream: seq<byte>)
    requires R.Inv(rx, stream) && R.EdgeInv(rx) && R.QueueInWindow(rx.ooseq, rx.nxt + SPAN) && R.Cut(s, stream)
    requires s.TcpLen() > 0 && s.pos == rx.nxt && 0 < rx.wnd <= R.TCP_WND && |s.data| < 0x1_0000
    ensures var c := R.ClipToWindow(s, rx.nxt + rx.wnd); var q := R.Absorb(c, rx.ooseq);
      && R.Ordered(rx.ooseq, c.pos) && c.Top() <= c.pos + 2 * SPAN && Near(rx.ooseq, c.pos)
      && R.Drainable(rx.(ooseq := q), stream) && q != [] && q[0].pos == rx.nxt && R.QueueInWindow(q, rx.nxt + SPAN)
  {
    var c := R.ClipToWindow(s, rx.nxt + rx.wnd);
    R.InOrderDrainable(rx, s, stream);
    AbsorbBounded(c, rx.ooseq, stream, rx.nxt + SPAN);
    R.OrderedFrom(rx.ooseq, rx.nxt + 1, c.pos);
    forall i | 0 <= i < |rx.ooseq| ensures c.pos <= rx.ooseq[i].pos { R.OrderedAbove(rx.ooseq, rx.nxt + 1, i); }
  }

  /** Behind the FIN nothing is queued: purging the queue on the way to TIME_WAIT finds it empty. */
  lemma {:induction false} NothingBehindFin(rx: R.Rx, stream: seq<byte>)
    requires R.Inv(rx, stream) && rx.gotFin
    ensures rx.ooseq == []
  {
    assert forall i :: 0 <= i < |rx.ooseq| ==> R.Cut(rx.ooseq[i], stream);
  }

  /** The window of tcp_recved(): the 16-bit sum may wrap around. */
  function Widened(wnd: u16, len: u16): (r: u16)
    ensures wnd <= R.TCP_WND ==> r == R.Min(R.TCP_WND, wnd + len)
  {
    var sum := (wnd + len) % 0x1_0000;
    if sum > R.TCP_WND || sum < wnd then R.TCP_WND else sum
  }

  // ---------------------------------------------------------------- whole runs

  /** What happens to the receive side, in the numbers of the code. */
  datatype Input =
    | Text(seg: TcpSeg, memOk: bool, acksAll: bool)   // a segment arrives
    | Taken(len: u16)                                 // tcp_recved()
    | Flush                                           // tcp_free_ooseq()
    | Sent                                            // any segment is sent
    | EofReported

  /** The same on positions: a sequence number stands for the position nearest to rcv_nxt. */
  ghost function Meant(i: Input, rx: R.Rx, irs: int): R.Event {
    match i
    case Text(seg, memOk, _) => R.Arrive(R.Segment(rx.nxt + Diff(seg.seqno, At(irs, rx.nxt)), seg.data, seg.fin), memOk)
    case Taken(len) => R.Recved(len)
    case Flush => R.FlushOoseq
    case Sent => R.Transmit
    case EofReported => R.EofAccounted
  }

  ghost function AllMeant(ins: seq<Input>, rx: R.Rx, irs: int, step: nat): seq<R.Event>
    decreases |ins|
  {
    if ins == [] then []
    else var e := Meant(ins[0], rx, irs); [e] + AllMeant(ins[1..], R.Step(rx, e, step), irs, step)
  }

  /** The peer sends pieces of its stream, from less than 2^31 away; an acknowledgement goes out
      before 2^31 sequence numbers have gone by. */
  ghost predicate Plausible(i: Input, rx: R.Rx, irs: int, stream: seq<byte>) {
    match i
    case Text(seg, _, _) =>
      var a := Meant(i, rx, irs).seg;
      |seg.data| < 0x1_0000 && R.Cut(a, stream) && -HALF32 < a.pos - rx.nxt && a.Top() - rx.nxt < HALF32 && Recent(rx)
    case Taken(_) => Recent(rx)
    case _ => true
  }

  ghost predicate AllPlausible(ins: seq<Input>, rx: R.Rx, irs: int, step: nat, stream: seq<byte>)
    decreases |ins|
  {
    ins == [] || (Plausible(ins[0], rx, irs, stream) &&
                  AllPlausible(ins[1..], R.Step(rx, Meant(ins[0], rx, irs), step), irs, step, stream))
  }

  /** Fewer than 2^31 sequence numbers went by since the last segment was sent. */
  ghost predicate Recent(rx: R.Rx) {
    rx.nxt + R.TCP_WND - rx.annEdge < HALF32
  }

  /** No event takes more than the window: no assertion on rcv_wnd fails. */
  ghost predicate NoOverrun(rx: R.Rx, es: seq<R.Event>, step: nat)
    decreases |es|
  {
    es == [] || (R.Step(rx, es[0], step).wnd >= 0 && NoOverrun(R.Step(rx, es[0], step), es[1..], step))
  }

  lemma {:induction false} MeantMatches(seg: TcpSeg, memOk: bool, acksAll: bool, rx: R.Rx, irs: int)
    requires |seg.data| < 0x1_0000
    ensures Matches(seg, Meant(Text(seg, memOk, acksAll), rx, irs).seg, irs)
  {
    NearestPosition(seg.seqno, irs + rx.nxt);
  }

  /** The first input and the rest. */
  lemma {:induction false} RunUnfolds(ins: seq<Input>, rx: R.Rx, irs: int, step: nat)
    requires ins != []
    ensures var e := Meant(ins[0], rx, irs); var rx' := R.Step(rx, e, step);
      var es, rest := AllMeant(ins, rx, irs, step), AllMeant(ins[1..], rx', irs, step);
      && R.Run(rx, es, step) == R.Run(rx', rest, step)
      && (NoOverrun(rx, es, step) <==> rx'.wnd >= 0 && NoOverrun(rx', rest, step))
  {
    hide R.Step;
    var e := Meant(ins[0], rx, irs);
    var rest := AllMeant(ins[1..], R.Step(rx, e, step), irs, step);
    assert ([e] + rest)[1..] == rest;
  }

  /** A peer that respects the window never makes the code halt. */
  lemma {:induction false} RespectfulNoOverrun(rx: R.Rx, es: seq<R.Event>, step: nat, stream: seq<byte>)
    requires R.Inv(rx, stream) && R.WindowInv(rx) && R.FromSender(es, stream) && R.RespectfulRun(rx, es, step)
    ensures NoOverrun(rx, es, step)
    decreases |es|
  {
    hide R.Inv, R.Step, R.Respectful;
    if es != [] {
      R.StepKeepsWindow(rx, es[0], step, stream);
      RespectfulNoOverrun(R.Step(rx, es[0], step), es[1..], step, stream);
    }
  }

  lemma {:induction false} AllCutFromSender(ins: seq<Input>, rx: R.Rx, irs: int, step: nat, stream: seq<byte>)
    requires AllPlausible(ins, rx, irs, step, stream)
    ensures R.FromSender(AllMeant(ins, rx, irs, step), stream)
    decreases |ins|
  {
    hide R.Step, R.Cut;
    if ins != [] {
      AllCutFromSender(ins[1..], R.Step(rx, Meant(ins[0], rx, irs), step), irs, step, stream);
    }
  }

  class TcpPcb {
    const irs: u32                     // sequence number of the first stream byte
    const mss: u16
    ghost const stream: seq<byte>      // what the peer sends before its FIN
    var state: TcpState
    var rcvNxt: u32
    var rcvWnd: u16
    var rcvAnnWnd: u16
    var rcvAnnRightEdge: u32
    var ooseq: seq<TcpSeg>
    ghost var rx: R.Rx                 // the same state on unbounded positions

    ghost function WndStep(): nat { R.Min(R.TCP_WND / 2, mss) }

    /** The 32-bit fields are the wrapped image of `rx`, all but rcv_ann_wnd. */
    ghost predicate Tracks()
      reads this
    {
      && rcvNxt == At(irs, rx.nxt) && rcvWnd == rx.wnd && rcvAnnRightEdge == At(irs, rx.annEdge)
      && MatchesAll(ooseq, rx.ooseq, irs)
      && 0 <= rx.wnd <= R.TCP_WND && 0 <= rx.nxt + rx.wnd - rx.annEdge
    }

    ghost predicate Valid()
      reads this
    {
      && Tracks() && rcvAnnWnd == rx.annWnd && (state.TakesText() <==> !rx.gotFin)
      && R.Inv(rx, stream) && R.EdgeInv(rx) && R.QueueInWindow(rx.ooseq, rx.nxt + SPAN)
    }

    ghost predicate RecentlySent()
      reads this`rx
    {
      Recent(rx)
    }

    /** A connection as tcp_alloc() and tcp_listen_input() leave it. */
    constructor (seqno: u32, mss: u16, ghost stream: seq<byte>)
      ensures Valid() && RecentlySent() && rx == R.START && state == Established && this.stream == stream
      ensures irs == Wrap(seqno + 1) && this.mss == mss
    {
      irs := Wrap(seqno + 1);
      this.mss := mss;
      this.stream := stream;
      state := Established;
      rcvNxt := Wrap(seqno + 1);
      rcvWnd, rcvAnnWnd := R.TCP_WND, R.TCP_WND;
      rcvAnnRightEdge := Wrap(seqno + 1);
      ooseq := [];
      rx := R.START;
    }

    /** tcp_update_rcv_ann_wnd() */
    method UpdateRcvAnnWnd() returns (inflation: u32)
      requires Tracks() && rx.nxt + rx.wnd - rx.annEdge < HALF32
      modifies this`rcvAnnWnd, this`rx
      ensures rx == R.UpdateAnnWnd(old(rx), WndStep()) && rcvAnnWnd == rx.annWnd
      ensures inflation == if old(rx.nxt + rx.wnd - rx.annEdge) >= WndStep() then old(rx.nxt + rx.wnd - rx.annEdge) else 0
    {
      hide MatchesAll, At, Wrap, Diff;
      var step := if R.TCP_WND / 2 <= mss then R.TCP_WND / 2 else mss;
      Advance(irs, rx.nxt, rcvWnd);
      Advance(irs, rx.annEdge, step);
      Compare(irs, rx.nxt + rx.wnd, rx.annEdge + step);
      var newRightEdge := Wrap(rcvNxt + rcvWnd);
      if SeqGeq(newRightEdge, Wrap(rcvAnnRightEdge + step)) {
        Distance(irs, rx.nxt + rx.wnd, rx.annEdge);
        rcvAnnWnd := rcvWnd;
        inflation := Wrap(newRightEdge - rcvAnnRightEdge);
      } else {
        rcvAnnWnd := KeepRightEdge();
        inflation := 0;
      }
      rx := R.UpdateAnnWnd(rx, WndStep());
    }

    /** The other half of tcp_update_rcv_ann_wnd(). */
    method KeepRightEdge() returns (wnd: u16)
      requires Tracks() && rx.nxt + rx.wnd < rx.annEdge + 0x1_0000
      ensures wnd == if rx.nxt > rx.annEdge then 0 else rx.annEdge - rx.nxt
    {
      Compare(irs, rx.nxt, rx.annEdge);
      if SeqGt(rcvNxt, rcvAnnRightEdge) {
        wnd := 0;
      } else {
        Distance(irs, rx.annEdge, rx.nxt);
        wnd := Wrap(rcvAnnRightEdge - rcvNxt);
      }
    }

    /** `r` is a state on the way through the in-sequence branch, matched by the fields. */
    ghost predicate Underway(r: R.Rx, base: int)
      reads this`rcvNxt, this`rcvWnd, this`rcvAnnRightEdge
    {
      && rcvNxt == At(irs, r.nxt) && rcvWnd == r.wnd && rcvAnnRightEdge == At(irs, r.annEdge)
      && 0 <= r.wnd <= R.TCP_WND && 0 <= r.nxt + r.wnd - r.annEdge < HALF32
      && R.Drainable(r, stream) && R.QueueInWindow(r.ooseq, base + SPAN) && r.nxt >= base
    }

    /** ... and the queue and the announced window are up to date as well. */
    ghost predicate Settled(r: R.Rx, base: int)
      reads this`rcvNxt, this`rcvWnd, this`rcvAnnWnd, this`rcvAnnRightEdge, this`ooseq, this`rx
    {
      Underway(r, base) && MatchesAll(ooseq, r.ooseq, irs) && rx == R.UpdateAnnWnd(r, WndStep()) && rcvAnnWnd == rx.annWnd
    }

    lemma {:induction false} SettledTracks(r: R.Rx, base: int)
      requires Settled(r, base)
      ensures Tracks() && rcvAnnWnd == rx.annWnd && R.QueueInWindow(rx.ooseq, rx.nxt + SPAN)
      ensures rx == R.UpdateAnnWnd(r, WndStep()) && rx.delivered == r.delivered && rx.gotFin == r.gotFin
    {
    }

    /** Hands up the segment at the head of the queue, already detached as `seg`.
        `halted` is a failed LWIP_ASSERT on rcv_wnd. */
    method Accept(seg: TcpSeg, next: seq<TcpSeg>, ghost r: R.Rx, ghost base: int) returns (halted: bool)
      requires Underway(r, base) && MatchesAll([seg] + next, r.ooseq, irs) && r.ooseq[0].pos == r.nxt
      modifies this`rcvNxt, this`rcvWnd, this`rcvAnnWnd, this`ooseq, this`rx
      ensures halted <==> R.TakeHead(r).wnd < 0
      ensures halted ==> R.Drain(r).wnd < 0
      ensures !halted ==> Settled(R.TakeHead(r), base)
    {
      var tcplen := seg.TcpLen();
      R.DrainOne(r, stream);
      DrainLowersWnd(R.TakeHead(r));
      assert ([seg] + next)[0] == seg;
      halted := rcvWnd < tcplen;
      if halted {
        return;
      }
      Advance(irs, r.nxt, tcplen);
      ooseq := next;
      assert MatchesAll(next, r.ooseq[1..], irs) by { assert ([seg] + next)[1..] == next; }
      rcvNxt := Wrap(rcvNxt + tcplen);
      rcvWnd := rcvWnd - tcplen;
      rx := R.TakeHead(r);
      var _ := UpdateRcvAnnWnd();
    }

    /** The guard of the loop below: the head of the queue starts at rcv_nxt. */
    method HeadInSequence(ghost r: R.Rx, ghost base: int) returns (b: bool)
      requires Settled(r, base)
      ensures b <==> r.ooseq != [] && r.ooseq[0].pos == r.nxt
    {
      if r.ooseq != [] {
        R.OrderedAbove(r.ooseq, r.nxt, 0);
        Compare(irs, r.ooseq[0].pos, r.nxt);
      }
      b := ooseq != [] && ooseq[0].seqno == rcvNxt;
    }

    /** The loop over segments that became in-sequence. */
    method DrainQueue(inFin: bool, ghost r0: R.Rx, ghost base: int) returns (recvData: seq<byte>, gotFin: bool, halted: bool)
      requires Settled(r0, base) && inFin == r0.gotFin
      modifies this`rcvNxt, this`rcvWnd, this`rcvAnnWnd, this`ooseq, this`rx
      ensures halted <==> R.Drain(r0).wnd < 0
      ensures !halted ==> Settled(R.Drain(r0), base)
      ensures !halted ==> gotFin == R.Drain(r0).gotFin && R.Drain(r0).delivered == r0.delivered + recvData
    {
      recvData, gotFin, halted := [], inFin, false;
      ghost var r := r0;
      var more := HeadInSequence(r, base);
      while more
        invariant Settled(r, base) && R.Drain(r) == R.Drain(r0) && gotFin == r.gotFin
        invariant r.delivered == r0.delivered + recvData
        invariant more <==> r.ooseq != [] && r.ooseq[0].pos == r.nxt
        decreases |ooseq|
      {
        var cseg := ooseq[0];
        assert ooseq == [cseg] + ooseq[1..];
        halted := Accept(cseg, ooseq[1..], r, base);
        if halted {
          return;
        }
        ConcatAssoc(r0.delivered, recvData, cseg.data);
        r := R.TakeHead(r);
        recvData := recvData + cseg.data;
        gotFin := gotFin || cseg.fin;
        more := HeadInSequence(r, base);
      }
      assert r == R.Drain(r0);
    }

    /** Settling an in-sequence segment with the window and the queue. */
    method SettleInOrder(inseg: TcpSeg, ghost s: R.Segment) returns (seg: TcpSeg, next: seq<TcpSeg>)
      requires Valid() && rcvWnd > 0
      requires Matches(inseg, s, irs) && R.Cut(s, stream) && s.TcpLen() > 0 && s.pos == rx.nxt
      ensures var q := R.Absorb(R.ClipToWindow(s, rx.nxt + rx.wnd), rx.ooseq);
        && MatchesAll([seg] + next, q, irs) && R.Drainable(rx.(ooseq := q), stream)
        && q != [] && q[0].pos == rx.nxt && R.QueueInWindow(q, rx.nxt + SPAN)
    {
      hide R.Inv, R.Cut, R.QueueInWindow, R.Absorb, R.Drainable, R.Ordered, Near;
      ghost var c := R.ClipToWindow(s, rx.nxt + rx.wnd);
      SettleFacts(rx, s, stream);
      seg := inseg;
      if seg.TcpLen() > rcvWnd {
        seg := TcpSeg(seg.seqno, seg.data[..rcvWnd], false);
      }
      seg, next := AbsorbInOrder(seg, ooseq, c, rx.ooseq, irs);
    }

    /** The in-sequence branch. */
    method TakeInOrder(inseg: TcpSeg, ghost s: R.Segment) returns (recvData: seq<byte>, gotFin: bool, halted: bool)
      requires Valid() && RecentlySent() && !rx.gotFin && rcvWnd > 0
      requires Matches(inseg, s, irs) && R.Cut(s, stream) && s.TcpLen() > 0 && s.pos == rx.nxt
      modifies this`rcvNxt, this`rcvWnd, this`rcvAnnWnd, this`ooseq, this`rx, this`state
      ensures halted <==> R.TakeInOrder(old(rx), s).wnd < 0
      ensures !halted ==> Tracks() && rcvAnnWnd == rx.annWnd && R.QueueInWindow(rx.ooseq, rx.nxt + SPAN)
      ensures !halted ==> rx == R.UpdateAnnWnd(R.TakeInOrder(old(rx), s), WndStep())
      ensures !halted ==> rx.delivered == old(rx.delivered) + recvData && gotFin == rx.gotFin
      ensures state == old(state) || (gotFin && old(state) == Established && state == CloseWait)
    {
      recvData, gotFin := [], false;
      var seg, next := SettleInOrder(inseg, s);
      ghost var r := rx.(ooseq := R.Absorb(R.ClipToWindow(s, rx.nxt + rx.wnd), rx.ooseq));
      assert seg == ([seg] + next)[0];
      assert R.TakeInOrder(rx, s) == R.Drain(r) == R.Drain(R.TakeHead(r));
      halted := Accept(seg, next, r, rx.nxt);
      if halted {
        return;
      }
      recvData, gotFin, halted := DrainQueue(seg.fin, R.TakeHead(r), old(rx.nxt));
      if gotFin && !seg.fin && state == Established {
        state := CloseWait;       // a dequeued FIN forces the passive close at once
      }
      if !halted { SettledTracks(R.Drain(R.TakeHead(r)), old(rx.nxt)); }
      ConcatAssoc(old(rx.delivered), seg.data, recvData);
      recvData := seg.data + recvData;
    }

    /** Both branches for a segment that starts inside the window. */
    method ReceiveInWindow(seg: TcpSeg, memOk: bool, ghost s: R.Segment) returns (recvData: seq<byte>, gotFin: bool, halted: bool)
      requires Valid() && RecentlySent() && !rx.gotFin
      requires Matches(seg, s, irs) && R.Cut(s, stream) && s.TcpLen() > 0 && rx.nxt <= s.pos < rx.nxt + rx.wnd
      modifies this
      ensures halted <==> R.ReceiveInWindow(old(rx), s, memOk, WndStep()).wnd < 0
      ensures !halted ==> Tracks() && rcvAnnWnd == rx.annWnd && rx == R.ReceiveInWindow(old(rx), s, memOk, WndStep())
      ensures !halted ==> R.QueueInWindow(rx.ooseq, rx.nxt + SPAN)
      ensures !halted ==> rx.delivered == old(rx.delivered) + recvData && gotFin == rx.gotFin
      ensures state == old(state) || (gotFin && old(state) == Established && state == CloseWait)
    {
      Compare(irs, s.pos, rx.nxt);
      if rcvNxt == seg.seqno {
        recvData, gotFin, halted := TakeInOrder(seg, s);
      } else {
        Enqueue(seg, memOk, s);
        recvData, gotFin, halted := [], false, false;
      }
    }

    /** tcp_receive() on the text of a segment. */
    method Receive(inseg: TcpSeg, memOk: bool, ghost a: R.Segment) returns (recvData: seq<byte>, gotFin: bool, halted: bool)
      requires Valid() && RecentlySent()
      requires Matches(inseg, a, irs) && R.Cut(a, stream)
      requires -HALF32 < a.pos - rx.nxt && a.Top() - rx.nxt < HALF32
      modifies this
      ensures halted <==> R.Receive(old(rx), a, memOk, WndStep()).wnd < 0
      ensures !halted ==> Tracks() && rcvAnnWnd == rx.annWnd && rx == R.Receive(old(rx), a, memOk, WndStep())
      ensures !halted ==> R.QueueInWindow(rx.ooseq, rx.nxt + SPAN)
      ensures !halted ==> rx.delivered == old(rx.delivered) + recvData
      ensures !halted ==> (gotFin <==> rx.gotFin && !old(rx.gotFin))
      ensures state == old(state) || (gotFin && old(state) == Established && state == CloseWait)
    {
      recvData, gotFin, halted := [], false, false;
      R.TrimFrontCut(a, rx.nxt, stream);
      if inseg.TcpLen() == 0 || !state.TakesText() {
        return;
      }
      var seg := TrimFirstEdge(inseg, a);
      var inWindow := InWindow(seg, R.TrimFront(a, rx.nxt));
      if inWindow {
        recvData, gotFin, halted := ReceiveInWindow(seg, memOk, R.TrimFront(a, rx.nxt));
      }
    }

    /** Trimming of the first edge. */
    method TrimFirstEdge(inseg: TcpSeg, ghost a: R.Segment) returns (seg: TcpSeg)
      requires Valid() && Matches(inseg, a, irs) && inseg.TcpLen() > 0
      requires -HALF32 < a.pos - rx.nxt && a.Top() - rx.nxt < HALF32
      ensures Matches(seg, R.TrimFront(a, rx.nxt), irs)
    {
      seg := inseg;
      var tcplen := inseg.TcpLen();
      Advance(irs, a.pos, 1);
      Advance(irs, a.pos, tcplen - 1);
      Compare(irs, rx.nxt, a.pos + 1);
      Compare(irs, rx.nxt, a.pos + tcplen - 1);
      if SeqBetween(rcvNxt, Wrap(inseg.seqno + 1), Wrap(inseg.seqno + tcplen - 1)) {
        Distance(irs, rx.nxt, a.pos);
        var off := Wrap(rcvNxt - inseg.seqno);
        seg := TcpSeg(rcvNxt, inseg.data[off..], inseg.fin);
      }
    }

    /** Whether the segment starts inside the receive window. */
    method InWindow(seg: TcpSeg, ghost s: R.Segment) returns (b: bool)
      requires Tracks() && Matches(seg, s, irs) && -HALF32 < s.pos - rx.nxt < HALF32 - 1
      ensures b <==> rx.nxt <= s.pos < rx.nxt + rx.wnd
    {
      Compare(irs, s.pos, rx.nxt);
      Advance(irs, rx.nxt, rcvWnd - 1);
      if s.pos >= rx.nxt { Compare(irs, s.pos, rx.nxt + rx.wnd - 1); }
      b := SeqBetween(seg.seqno, rcvNxt, Wrap(rcvNxt + rcvWnd - 1));
    }

    /** The out-of-sequence branch. */
    method Enqueue(seg: TcpSeg, memOk: bool, ghost s: R.Segment)
      requires Valid() && Matches(seg, s, irs) && R.Cut(s, stream) && s.TcpLen() > 0
      requires rx.nxt < s.pos < rx.nxt + rx.wnd
      modifies this`ooseq, this`rx
      ensures Valid()
      ensures rx == if memOk then old(rx).(ooseq := R.Enqueue(old(rx.ooseq), s, old(rx.nxt + rx.wnd))) else old(rx)
    {
      hide R.Inv, R.QueueInWindow, R.Cut, R.Ordered, R.Place, At, Near;
      EnqueueFacts(rx, s, stream);
      if ooseq == [] {
        ooseq := if memOk then [seg] else [];
      } else {
        Advance(irs, rx.nxt, rcvWnd);
        ooseq := QueueOoseq(ooseq, seg, Wrap(rcvNxt + rcvWnd), memOk, rx.ooseq, s, rx.nxt + rx.wnd, rx.nxt + 1, irs);
      }
      if memOk {
        rx := rx.(ooseq := R.Enqueue(rx.ooseq, s, rx.nxt + rx.wnd));
      }
    }

    /** tcp_process(): receive, then move the state. */
    method Process(inseg: TcpSeg, memOk: bool, acksAll: bool, ghost a: R.Segment)
      returns (recvData: seq<byte>, gotFin: bool, closed: bool, halted: bool)
      requires Valid() && RecentlySent()
      requires Matches(inseg, a, irs) && R.Cut(a, stream)
      requires -HALF32 < a.pos - rx.nxt && a.Top() - rx.nxt < HALF32
      modifies this
      ensures halted <==> R.Receive(old(rx), a, memOk, WndStep()).wnd < 0
      ensures !halted ==> Valid() && rx == R.Receive(old(rx), a, memOk, WndStep())
      ensures !halted ==> rx.delivered == old(rx.delivered) + recvData
      ensures !halted ==> (gotFin <==> rx.gotFin && !old(rx.gotFin))
      ensures !halted ==> state == NextState(old(state), gotFin, acksAll)
      ensures !halted && state == TimeWait ==> ooseq == []
      ensures closed <==> !halted && old(state) == LastAck && acksAll
    {
      var before := state;
      closed := false;
      R.ReceiveKeepsInv(rx, a, memOk, WndStep(), stream);
      ReceiveKeepsEdge(rx, a, memOk, WndStep(), stream);
      recvData, gotFin, halted := Receive(inseg, memOk, a);
      if halted {
        return;
      }
      if rx.gotFin { NothingBehindFin(rx, stream); }
      match before {
        case Established =>
          if gotFin { state := CloseWait; }
        case CloseWait =>
        case FinWait1 =>
          if gotFin {
            state := if acksAll then TimeWait else Closing;
          } else if acksAll {
            state := FinWait2;
          }
        case FinWait2 =>
          if gotFin { state := TimeWait; }
        case Closing =>
          if acksAll { state := TimeWait; }
        case LastAck =>
          closed := acksAll;
        case TimeWait =>
      }
      if state == TimeWait && before != TimeWait {
        ooseq := [];              // tcp_pcb_purge()
      }
    }

    /** tcp_recved(); `update` is the explicit window update. */
    method Recved(len: u16) returns (update: bool)
      requires Valid() && RecentlySent()
      modifies this`rcvWnd, this`rcvAnnWnd, this`rx
      ensures Valid() && rx == R.Step(old(rx), R.Event.Recved(len), WndStep())
      ensures rcvWnd == if old(rcvWnd) + len > R.TCP_WND then R.TCP_WND else old(rcvWnd) + len
      // when the right edge has moved far enough
      ensures update <==> rx.nxt + rx.wnd - rx.annEdge >= WndStep() && rx.nxt + rx.wnd - rx.annEdge >= 5840
      ensures update ==> rx.annWnd == rx.wnd
    {
      hide R.Inv, R.QueueInWindow, MatchesAll, At;
      WindowKeepsInv(rx, R.Step(rx, R.Event.Recved(len), WndStep()), stream);
      rcvWnd := Widened(rcvWnd, len);
      rx := rx.(wnd := R.Min(R.TCP_WND, rx.wnd + len));
      var inflation := UpdateRcvAnnWnd();
      update := inflation >= 5840;     // LWIP_MIN(TCP_WND / 4, TCP_MSS * 4)
    }

    /** tcp_free_ooseq() */
    method FreeOoseq()
      requires Valid()
      modifies this`ooseq, this`rx
      ensures Valid() && ooseq == [] && rx == R.Step(old(rx), R.FlushOoseq, WndStep())
    {
      ooseq := [];
      rx := rx.(ooseq := []);
    }

    /** What tcp_output_segment() and tcp_output_alloc_header() do to the receive window. */
    method NoteTransmit()
      requires Valid()
      modifies this`rcvAnnRightEdge, this`rx
      ensures Valid() && RecentlySent() && rx == R.Step(old(rx), R.Transmit, WndStep())
    {
      Advance(irs, rx.nxt, rcvAnnWnd);
      rcvAnnRightEdge := Wrap(rcvNxt + rcvAnnWnd);
      rx := rx.(annEdge := rx.nxt + rx.annWnd);
    }

    /** The correction of rcv_wnd when the FIN is reported to the application. */
    method AccountEof()
      requires Valid()
      modifies this`rcvWnd, this`rx
      ensures Valid() && rx == R.Step(old(rx), R.EofAccounted, WndStep())
    {
      if rcvWnd != R.TCP_WND {
        rcvWnd := rcvWnd + 1;
        rx := rx.(wnd := rx.wnd + 1);
      }
    }

    /**
     * Every run: whatever arrives and whatever is done to the window, the 32-bit state is that of the run on
     * positions, and what has been handed up is what was reassembled there. The run halts exactly when an
     * arrival takes more than the window, and never with a peer that respects it.
     */
    method Run(ins: seq<Input>) returns (received: seq<byte>, halted: bool)
      requires Valid() && AllPlausible(ins, rx, irs, WndStep(), stream)
      modifies this
      ensures var es := AllMeant(ins, old(rx), irs, WndStep());
        && R.FromSender(es, stream)
        && (halted <==> !NoOverrun(old(rx), es, WndStep()))
        && (!halted ==> Valid() && rx == R.Run(old(rx), es, WndStep()) && rx.delivered == old(rx.delivered) + received)
        && (R.WindowInv(old(rx)) && R.RespectfulRun(old(rx), es, WndStep()) ==> !halted)
    {
      hide R.Inv, R.WindowInv, R.RespectfulRun, R.FromSender, R.Step, R.Cut, NoOverrun;
      AllCutFromSender(ins, rx, irs, WndStep(), stream);
      received, halted := RunFrom(ins);
      ghost var es := AllMeant(ins, old(rx), irs, WndStep());
      if R.WindowInv(old(rx)) && R.RespectfulRun(old(rx), es, WndStep()) {
        RespectfulNoOverrun(old(rx), es, WndStep(), stream);
      }
    }

    method RunFrom(ins: seq<Input>) returns (received: seq<byte>, halted: bool)
      requires Valid() && AllPlausible(ins, rx, irs, WndStep(), stream)
      modifies this
      ensures var es := AllMeant(ins, old(rx), irs, WndStep());
        && (halted <==> !NoOverrun(old(rx), es, WndStep()))
        && (!halted ==> Valid() && rx == R.Run(old(rx), es, WndStep()) && rx.delivered == old(rx.delivered) + received)
    {
      hide R.Step, R.Cut, Meant, Plausible;
      ghost var step := WndStep();
      received, halted := [], false;
      var i := 0;
      assert ins[0..] == ins;
      while i < |ins|
        invariant i <= |ins| && Valid() && AllPlausible(ins[i..], rx, irs, step, stream)
        invariant R.Run(rx, AllMeant(ins[i..], rx, irs, step), step) == R.Run(old(rx), AllMeant(ins, old(rx), irs, step), step)
        invariant NoOverrun(rx, AllMeant(ins[i..], rx, irs, step), step) <==> NoOverrun(old(rx), AllMeant(ins, old(rx), irs, step), step)
        invariant rx.delivered == old(rx.delivered) + received && !halted
      {
        assert ins[i..][1..] == ins[i + 1..];
        RunUnfolds(ins[i..], rx, irs, step);
        var more;
        more, halted := Apply(ins[i]);
        if halted {
          return;
        }
        ConcatAssoc(old(rx.delivered), received, more);
        received := received + more;
        i := i + 1;
      }
      assert ins[i..] == [];
    }

    method Apply(i: Input) returns (more: seq<byte>, halted: bool)
      requires Valid() && Plausible(i, rx, irs, stream)
      modifies this
      ensures var rx' := R.Step(old(rx), Meant(i, old(rx), irs), WndStep());
        (halted <==> rx'.wnd < 0) && (!halted ==> Valid() && rx == rx' && rx.delivered == old(rx.delivered) + more)
    {
      more, halted := [], false;
      match i {
        case Text(seg, memOk, acksAll) =>
          MeantMatches(seg, memOk, acksAll, rx, irs);
          var gotFin, closed;
          more, gotFin, closed, halted := Process(seg, memOk, acksAll, Meant(i, rx, irs).seg);
        case Taken(len) =>
          var update := Recved(len);
        case Flush =>
          FreeOoseq();
        case Sent =>
          NoteTransmit();
        case EofReported =>
          AccountEof();
      }
    }
  }
}
