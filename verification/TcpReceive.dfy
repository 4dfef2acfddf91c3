/** Receive path of tcp_in.c over unbounded stream positions: what tcp_receive()
    does to the out-of-order queue, rcv_nxt and the data handed to the application.
    Position 0 is the first byte after the SYN; module TcpIn shows that the 32-bit
    code computes exactly these functions. */
module TcpReceive {
  import opened SeqNum

  /** A tcp_seg on the receive side: payload and FIN flag at a stream position. */
  datatype Segment = Segment(pos: int, data: seq<byte>, fin: bool) {
    function End(): int { pos + |data| }
    /** TCP_TCPLEN */
    function TcpLen(): int { |data| + if fin then 1 else 0 }
    function Top(): int { pos + TcpLen() }
    /** The segment occupies position x; a FIN occupies the position after the data. */
    predicate Has(x: int) { pos <= x < Top() }
  }

  /** pbuf_realloc() of a segment that reaches beyond position `at`. */
  function TrimEnd(s: Segment, at: int): Segment {
    if s.pos <= at < s.End() then s.(data := s.data[..at - s.pos]) else s
  }

  /** Trimming of the first edge. */
  function TrimFront(s: Segment, nxt: int): Segment {
    if s.pos < nxt < s.Top() then Segment(nxt, s.data[nxt - s.pos..], s.fin) else s
  }

  /** A segment that overruns the right window edge loses its FIN and the excess. */
  function ClipToWindow(s: Segment, edge: int): Segment {
    if edge < s.Top() && s.pos <= edge then s.(data := s.data[..edge - s.pos], fin := false) else s
  }

  /** tcp_oos_insert_segment(): `c` swallows what it covers of `rest`. */
  function Absorb(c: Segment, rest: seq<Segment>): seq<Segment>
    decreases |rest|
  {
    if c.fin || rest == [] then
      [c]
    else if c.End() >= rest[0].End() then
      Absorb(c.(fin := rest[0].fin), rest[1..])
    else
      [TrimEnd(c, rest[0].pos)] + rest
  }

  /** The search loop of tcp_receive() over a non-empty ooseq queue. */
  function Place(q: seq<Segment>, s: Segment, edge: int): seq<Segment>
    requires q != []
    decreases |q|
  {
    if s.pos < q[0].pos || (s.pos == q[0].pos && |s.data| > |q[0].data|) then
      Absorb(s, q)
    else if s.pos == q[0].pos then
      q
    else if |q| == 1 then
      if q[0].fin then q else [TrimEnd(q[0], s.pos), ClipToWindow(s, edge)]
    else if s.pos < q[1].pos then
      [TrimEnd(q[0], s.pos)] + Absorb(s, q[1..])
    else
      [q[0]] + Place(q[1..], s, edge)
  }

  /** Receive state: rcv_nxt, rcv_wnd, rcv_ann_wnd, rcv_ann_right_edge, ooseq, all bytes
      handed up so far, and whether TF_GOT_FIN was raised (state >= CLOSE_WAIT).
      A negative `wnd` stands for the failed assertion "ooseq tcplen > rcv_wnd". */
  datatype Rx = Rx(nxt: int, wnd: int, annWnd: int, annEdge: int,
                   ooseq: seq<Segment>, delivered: seq<byte>, gotFin: bool)

  /** The first queued segment is handed up. */
  function TakeHead(r: Rx): Rx
    requires r.ooseq != []
  {
    var s := r.ooseq[0];
    r.(nxt := s.Top(), wnd := r.wnd - s.TcpLen(), ooseq := r.ooseq[1..],
       delivered := r.delivered + s.data, gotFin := r.gotFin || s.fin)
  }

  /** The loop that takes in-sequence segments off the queue. */
  function Drain(r: Rx): Rx
    decreases |r.ooseq|
  {
    if r.ooseq != [] && r.ooseq[0].pos == r.nxt then
      Drain(TakeHead(r))
    else
      r
  }

  /** tcp_update_rcv_ann_wnd(); `step` is LWIP_MIN(TCP_WND / 2, mss). */
  function UpdateAnnWnd(r: Rx, step: nat): Rx {
    if r.nxt + r.wnd >= r.annEdge + step then r.(annWnd := r.wnd)
    else if r.nxt > r.annEdge then r.(annWnd := 0)
    else r.(annWnd := r.annEdge - r.nxt)
  }

  /** tcp_receive(): `memOk` says whether tcp_seg_copy() gets memory. */
  function Receive(r: Rx, arrived: Segment, memOk: bool, step: nat): Rx {
    var s := TrimFront(arrived, r.nxt);
    if s.TcpLen() == 0 || r.gotFin || !(r.nxt <= s.pos < r.nxt + r.wnd) then r
    else ReceiveInWindow(r, s, memOk, step)
  }

  function ReceiveInWindow(r: Rx, s: Segment, memOk: bool, step: nat): Rx {
    if s.pos == r.nxt then UpdateAnnWnd(TakeInOrder(r, s), step)
    else if !memOk then r
    else r.(ooseq := Enqueue(r.ooseq, s, r.nxt + r.wnd))
  }

  function Enqueue(q: seq<Segment>, s: Segment, edge: int): seq<Segment> {
    if q == [] then [s] else Place(q, s, edge)
  }

  /** The in-sequence branch of tcp_receive(). */
  function TakeInOrder(r: Rx, s: Segment): Rx {
    Drain(r.(ooseq := Absorb(ClipToWindow(s, r.nxt + r.wnd), r.ooseq)))
  }

  // ---------------------------------------------------------------- invariants

  /** `s` was cut from the sender's stream, whose FIN follows its last byte. */
  ghost predicate Cut(s: Segment, stream: seq<byte>) {
    && 0 <= s.pos && s.End() <= |stream|
    && s.data == stream[s.pos..s.End()]
    && (s.fin ==> s.End() == |stream|)
  }

  ghost predicate AllCut(q: seq<Segment>, stream: seq<byte>) {
    forall i :: 0 <= i < |q| ==> Cut(q[i], stream)
  }

  /** Strictly sorted, pairwise disjoint, nothing below `lo`, no empty segment, FIN last. */
  ghost predicate Ordered(q: seq<Segment>, lo: int) {
    q == [] || (lo <= q[0].pos && q[0].TcpLen() > 0 && (q[0].fin ==> |q| == 1)
                && Ordered(q[1..], q[0].Top()))
  }

  ghost predicate Covers(q: seq<Segment>, x: int) {
    exists i :: 0 <= i < |q| && q[i].Has(x)
  }

  function Min(a: int, b: int): int { if a <= b then a else b }

  ghost predicate Inv(r: Rx, stream: seq<byte>) {
    && 0 <= r.nxt <= |stream| + 1
    && r.delivered == stream[..Min(r.nxt, |stream|)]
    && (r.gotFin <==> r.nxt == |stream| + 1)
    && AllCut(r.ooseq, stream) && Ordered(r.ooseq, r.nxt + 1)
  }

  /** What the recursive invariant says index by index. */
  lemma {:induction false} OrderedIsSortedAndDisjoint(q: seq<Segment>, lo: int, i: int, j: int)
    requires Ordered(q, lo) && 0 <= i < j < |q|
    ensures lo <= q[i].pos < q[i].Top() <= q[j].pos < q[j].Top()
    ensures !q[i].fin
  {
    if i == 0 {
      OrderedAbove(q[1..], q[0].Top(), j - 1);
      assert q[1..][j - 1] == q[j];
    } else {
      OrderedIsSortedAndDisjoint(q[1..], q[0].Top(), i - 1, j - 1);
    }
  }

  lemma {:induction false} OrderedAbove(q: seq<Segment>, lo: int, i: int)
    requires Ordered(q, lo) && 0 <= i < |q|
    ensures lo <= q[i].pos < q[i].Top()
  {
    if i > 0 { OrderedAbove(q[1..], q[0].Top(), i - 1); assert q[1..][i - 1] == q[i]; }
  }

  /** The floor of a queue may be anything up to its first position. */
  lemma {:induction false} OrderedFrom(q: seq<Segment>, lo: int, floor: int)
    requires Ordered(q, lo) && (q == [] || floor <= q[0].pos)
    ensures Ordered(q, floor)
  {
  }

  lemma {:induction false} OrderedCons(s: Segment, q: seq<Segment>, lo: int)
    requires lo <= s.pos && s.TcpLen() > 0 && (s.fin ==> q == []) && Ordered(q, s.Top())
    ensures Ordered([s] + q, lo)
  {
    assert ([s] + q)[1..] == q;
  }

  lemma {:induction false} CoversAbove(q: seq<Segment>, lo: int, x: int)
    requires Ordered(q, lo) && Covers(q, x)
    ensures lo <= x
  {
    var i :| 0 <= i < |q| && q[i].Has(x);
    OrderedAbove(q, lo, i);
  }

  lemma {:induction false} CoversCons(s: Segment, q: seq<Segment>, x: int)
    ensures Covers([s] + q, x) <==> s.Has(x) || Covers(q, x)
  {
    var t := [s] + q;
    if Covers(q, x) { var i :| 0 <= i < |q| && q[i].Has(x); assert t[i + 1].Has(x); }
    if s.Has(x) { assert t[0].Has(x); }
    if Covers(t, x) { var i :| 0 <= i < |t| && t[i].Has(x); if i > 0 { assert q[i - 1].Has(x); } }
  }

  lemma {:induction false} CoversTail(q: seq<Segment>, x: int)
    requires q != []
    ensures Covers(q, x) <==> q[0].Has(x) || Covers(q[1..], x)
  {
    assert q == [q[0]] + q[1..];
    CoversCons(q[0], q[1..], x);
  }

  // ------------------------------------------------- tcp_oos_insert_segment()

  ghost predicate CanAbsorb(c: Segment, rest: seq<Segment>, stream: seq<byte>) {
    && Cut(c, stream) && AllCut(rest, stream) && c.TcpLen() > 0 && Ordered(rest, c.pos)
    && (rest != [] && rest[0].pos == c.pos ==> c.End() >= rest[0].End())
  }

  /** Absorbing keeps the queue valid ... */
  lemma {:induction false} AbsorbOrdered(c: Segment, rest: seq<Segment>, stream: seq<byte>)
    requires CanAbsorb(c, rest, stream)
    ensures Absorb(c, rest) != [] && Absorb(c, rest)[0].pos == c.pos
    ensures Ordered(Absorb(c, rest), c.pos) && AllCut(Absorb(c, rest), stream)
    decreases |rest|
  {
    if c.fin || rest == [] {
    } else if c.End() >= rest[0].End() {
      OrderedFrom(rest[1..], rest[0].Top(), c.pos);
      AbsorbOrdered(c.(fin := rest[0].fin), rest[1..], stream);
    } else {
      var r := [TrimEnd(c, rest[0].pos)] + rest;
      assert r[1..] == rest;
    }
  }

  /** ... and neither loses nor invents a single position, FIN included. */
  lemma {:induction false} AbsorbCovers(c: Segment, rest: seq<Segment>, stream: seq<byte>, x: int)
    requires CanAbsorb(c, rest, stream)
    ensures Covers(Absorb(c, rest), x) <==> c.Has(x) || Covers(rest, x)
    decreases |rest|
  {
    if c.fin || rest == [] {
      assert Covers([c], x) <==> c.Has(x) by { CoversCons(c, [], x); assert [c] + [] == [c]; }
      if Covers(rest, x) {
        var i :| 0 <= i < |rest| && rest[i].Has(x);
        OrderedAbove(rest, c.pos, i);
        assert Cut(rest[i], stream);
      }
    } else if c.End() >= rest[0].End() {
      OrderedFrom(rest[1..], rest[0].Top(), c.pos);
      AbsorbCovers(c.(fin := rest[0].fin), rest[1..], stream, x);
      CoversTail(rest, x);
    } else {
      CoversCons(TrimEnd(c, rest[0].pos), rest, x);
      CoversTail(rest, x);
    }
  }

  // ---------------------------------------------------- out-of-order insertion

  /** What may be put into the queue: above its floor and from the stream. */
  ghost predicate CanPlace(q: seq<Segment>, s: Segment, edge: int, stream: seq<byte>, lo: int) {
    && Cut(s, stream) && AllCut(q, stream) && s.TcpLen() > 0
    && Ordered(q, lo) && lo <= s.pos < edge
  }

  lemma {:induction false} PlaceOrdered(q: seq<Segment>, s: Segment, edge: int, stream: seq<byte>, lo: int)
    requires q != [] && CanPlace(q, s, edge, stream, lo)
    ensures Ordered(Place(q, s, edge), lo) && AllCut(Place(q, s, edge), stream)
    decreases |q|
  {
    assert Cut(q[0], stream);
    if s.pos < q[0].pos || (s.pos == q[0].pos && |s.data| > |q[0].data|) {
      OrderedFrom(q, lo, s.pos);
      AbsorbOrdered(s, q, stream);
      OrderedFrom(Absorb(s, q), s.pos, lo);
    } else if s.pos == q[0].pos {
    } else if |q| == 1 {
      if !q[0].fin { AppendOrdered(q[0], s, edge, stream, lo); }
    } else if s.pos < q[1].pos {
      SpliceOrdered(q[0], q[1..], s, stream, lo);
    } else {
      OrderedAbove(q, lo, 1);
      PlaceOrdered(q[1..], s, edge, stream, q[0].Top());
      OrderedCons(q[0], Place(q[1..], s, edge), lo);
    }
  }

  lemma {:induction false} TrimEndCut(p: Segment, at: int, stream: seq<byte>)
    requires Cut(p, stream) && !p.fin
    ensures Cut(TrimEnd(p, at), stream)
  {
    if p.pos <= at < p.End() {
      assert p.data[..at - p.pos] == stream[p.pos..at];
    }
  }

  lemma {:induction false} SpliceOrdered(p: Segment, rest: seq<Segment>, s: Segment, stream: seq<byte>, lo: int)
    requires Cut(p, stream) && Cut(s, stream) && AllCut(rest, stream) && !p.fin && p.TcpLen() > 0 && s.TcpLen() > 0
    requires rest != [] && Ordered(rest, p.Top()) && lo <= p.pos < s.pos < rest[0].pos
    ensures Ordered([TrimEnd(p, s.pos)] + Absorb(s, rest), lo)
    ensures AllCut([TrimEnd(p, s.pos)] + Absorb(s, rest), stream)
  {
    hide Absorb;
    OrderedFrom(rest, p.Top(), s.pos);
    AbsorbOrdered(s, rest, stream);
    OrderedFrom(Absorb(s, rest), s.pos, TrimEnd(p, s.pos).Top());
    OrderedCons(TrimEnd(p, s.pos), Absorb(s, rest), lo);
    TrimEndCut(p, s.pos, stream);
  }

  lemma {:induction false} AppendOrdered(p: Segment, s: Segment, edge: int, stream: seq<byte>, lo: int)
    requires Cut(p, stream) && Cut(s, stream) && !p.fin && p.TcpLen() > 0 && s.TcpLen() > 0
    requires lo <= p.pos < s.pos < edge
    ensures Ordered([TrimEnd(p, s.pos), ClipToWindow(s, edge)], lo)
    ensures AllCut([TrimEnd(p, s.pos), ClipToWindow(s, edge)], stream)
  {
    var c, d := TrimEnd(p, s.pos), ClipToWindow(s, edge);
    assert [d][1..] == [];
    OrderedCons(c, [d], lo);
    assert [c] + [d] == [c, d];
  }

  /** The segment actually stored: only the append path clips to the window. */
  function Stored(q: seq<Segment>, s: Segment, edge: int): Segment
    requires q != []
  {
    if s.pos > q[|q| - 1].pos then ClipToWindow(s, edge) else s
  }

  /** Position `x` was queued in a segment that starts before `s` and outlasts it:
      the insertion cuts that segment at s.pos and its tail is forgotten. */
  ghost predicate Forgotten(q: seq<Segment>, s: Segment, edge: int, x: int)
    requires q != []
  {
    exists i :: 0 <= i < |q| && q[i].pos < s.pos && !q[i].fin && q[i].Has(x) && Stored(q, s, edge).Top() <= x
  }

  /** The FIN of a segment whose data is already queued at the same position is dropped. */
  ghost predicate FinIgnored(q: seq<Segment>, s: Segment, x: int) {
    exists i :: 0 <= i < |q| && q[i].pos == s.pos && q[i].End() == s.End() && !q[i].fin && x == s.End()
  }

  /** Exactly which positions are queued after an out-of-order arrival. */
  ghost predicate PlacedExactly(q: seq<Segment>, s: Segment, edge: int, x: int)
    requires q != []
  {
    Covers(Place(q, s, edge), x) <==>
      (Covers(q, x) && !Forgotten(q, s, edge, x)) || (Stored(q, s, edge).Has(x) && !FinIgnored(q, s, x))
  }

  lemma {:induction false} NothingForgotten(q: seq<Segment>, s: Segment, edge: int, lo: int, x: int)
    requires q != [] && Ordered(q, lo) && s.pos <= q[0].pos
    ensures !Forgotten(q, s, edge, x)
    ensures FinIgnored(q, s, x) <==>
              q[0].pos == s.pos && q[0].End() == s.End() && !q[0].fin && x == s.End()
  {
    forall i | 0 <= i < |q| ensures s.pos <= q[i].pos && (i > 0 ==> s.pos < q[i].pos) {
      if i > 0 { OrderedIsSortedAndDisjoint(q, lo, 0, i); }
    }
  }

  lemma {:induction false} ForgottenTail(q: seq<Segment>, s: Segment, edge: int, x: int)
    requires |q| > 1 && q[0].pos < s.pos
    ensures Forgotten(q, s, edge, x) <==>
              (!q[0].fin && q[0].Has(x) && Stored(q, s, edge).Top() <= x) || Forgotten(q[1..], s, edge, x)
    ensures FinIgnored(q, s, x) <==> FinIgnored(q[1..], s, x)
  {
    var t := q[1..];
    assert Stored(t, s, edge) == Stored(q, s, edge);
    forall i | 0 <= i < |t| ensures t[i] == q[i + 1] { }
    if Forgotten(q, s, edge, x) && !(!q[0].fin && q[0].Has(x) && Stored(q, s, edge).Top() <= x) {
      var i :| 0 <= i < |q| && q[i].pos < s.pos && !q[i].fin && q[i].Has(x) && Stored(q, s, edge).Top() <= x;
      assert t[i - 1] == q[i];
    }
    if FinIgnored(q, s, x) {
      var i :| 0 <= i < |q| && q[i].pos == s.pos && q[i].End() == s.End() && !q[i].fin && x == s.End();
      assert t[i - 1] == q[i];
    }
  }

  lemma {:induction false} PlaceCoversAtHead(q: seq<Segment>, s: Segment, edge: int, stream: seq<byte>, lo: int, x: int)
    requires q != [] && CanPlace(q, s, edge, stream, lo) && s.pos <= q[0].pos
    ensures PlacedExactly(q, s, edge, x)
  {
    NothingForgotten(q, s, edge, lo, x);
    if |q| > 1 { OrderedIsSortedAndDisjoint(q, lo, 0, |q| - 1); }
    assert Stored(q, s, edge) == s;
    if s.pos < q[0].pos || |s.data| > |q[0].data| {
      OrderedFrom(q, lo, s.pos);
      AbsorbCovers(s, q, stream, x);
    } else {
      CoversTail(q, x);
      assert Cut(q[0], stream);
    }
  }

  lemma {:induction false} PlaceCoversAtEnd(q: seq<Segment>, s: Segment, edge: int, stream: seq<byte>, lo: int, x: int)
    requires |q| == 1 && CanPlace(q, s, edge, stream, lo) && q[0].pos < s.pos
    ensures PlacedExactly(q, s, edge, x)
  {
    var p, t := q[0], ClipToWindow(s, edge);
    assert q == [p] + [];
    CoversCons(p, [], x);
    assert Cut(p, stream);
    assert Forgotten(q, s, edge, x) <==> !p.fin && p.Has(x) && t.Top() <= x;
    if !p.fin {
      CoversCons(TrimEnd(p, s.pos), [t], x);
      CoversCons(t, [], x);
      assert [t] == [t] + [] && Place(q, s, edge) == [TrimEnd(p, s.pos)] + [t];
    }
  }

  lemma {:induction false} PlaceCoversBetween(q: seq<Segment>, s: Segment, edge: int, stream: seq<byte>, lo: int, x: int)
    requires |q| > 1 && CanPlace(q, s, edge, stream, lo) && q[0].pos < s.pos < q[1].pos
    ensures PlacedExactly(q, s, edge, x)
  {
    CoversTail(q, x);
    ForgottenTail(q, s, edge, x);
    NothingForgotten(q[1..], s, edge, q[0].Top(), x);
    if |q| > 2 { OrderedIsSortedAndDisjoint(q, lo, 1, |q| - 1); }
    assert Stored(q, s, edge) == s;
    OrderedFrom(q[1..], q[0].Top(), s.pos);
    AbsorbCovers(s, q[1..], stream, x);
    CoversCons(TrimEnd(q[0], s.pos), Absorb(s, q[1..]), x);
    if Covers(q[1..], x) { CoversAbove(q[1..], q[0].Top(), x); }
  }

  /** Every out-of-order insertion changes the set of queued positions in exactly this way. */
  lemma {:induction false} PlaceCovers(q: seq<Segment>, s: Segment, edge: int, stream: seq<byte>, lo: int, x: int)
    requires q != [] && CanPlace(q, s, edge, stream, lo)
    ensures PlacedExactly(q, s, edge, x)
    decreases |q|
  {
    if s.pos <= q[0].pos {
      PlaceCoversAtHead(q, s, edge, stream, lo, x);
    } else if |q| == 1 {
      PlaceCoversAtEnd(q, s, edge, stream, lo, x);
    } else if s.pos < q[1].pos {
      PlaceCoversBetween(q, s, edge, stream, lo, x);
    } else {
      CoversTail(q, x);
      ForgottenTail(q, s, edge, x);
      PlaceCovers(q[1..], s, edge, stream, q[0].Top(), x);
      CoversCons(q[0], Place(q[1..], s, edge), x);
      if Covers(q[1..], x) { CoversAbove(q[1..], q[0].Top(), x); }
    }
  }

  // ------------------------------------------------------- in-order delivery

  /** The invariant while in-sequence segments may still sit at the head of the queue. */
  ghost predicate Drainable(r: Rx, stream: seq<byte>) {
    && 0 <= r.nxt <= |stream| + 1
    && r.delivered == stream[..Min(r.nxt, |stream|)]
    && (r.gotFin <==> r.nxt == |stream| + 1)
    && AllCut(r.ooseq, stream) && Ordered(r.ooseq, r.nxt)
  }

  lemma {:induction false} DrainOne(r: Rx, stream: seq<byte>)
    requires Drainable(r, stream) && r.ooseq != [] && r.ooseq[0].pos == r.nxt
    ensures Drainable(TakeHead(r), stream)
  {
    var s := r.ooseq[0];
    assert Cut(s, stream);
    assert stream[..s.pos] + stream[s.pos..s.End()] == stream[..s.End()];
    if s.Top() == |stream| + 1 && !s.fin { assert false; }
  }

  lemma {:induction false} DrainKeepsInv(r: Rx, stream: seq<byte>)
    requires Drainable(r, stream)
    ensures Inv(Drain(r), stream)
    ensures Drain(r).nxt >= r.nxt && r.delivered <= Drain(r).delivered
    ensures Drain(r).nxt + Drain(r).wnd == r.nxt + r.wnd
    ensures Drain(r).annEdge == r.annEdge && Drain(r).annWnd == r.annWnd
    decreases |r.ooseq|
  {
    if r.ooseq != [] && r.ooseq[0].pos == r.nxt {
      DrainOne(r, stream);
      DrainKeepsInv(TakeHead(r), stream);
    } else {
      OrderedFrom(r.ooseq, r.nxt, r.nxt + 1);
    }
  }

  /** Draining advances rcv_nxt over every queued position up to the first gap, and
      removes from the queue exactly what it passed. */
  lemma {:induction false} DrainStopsAtGap(r: Rx, stream: seq<byte>, x: int)
    requires Drainable(r, stream)
    ensures r.nxt <= x < Drain(r).nxt ==> Covers(r.ooseq, x)
    ensures x == Drain(r).nxt ==> !Covers(r.ooseq, x)
    ensures Covers(Drain(r).ooseq, x) <==> Covers(r.ooseq, x) && Drain(r).nxt <= x
    decreases |r.ooseq|
  {
    if r.ooseq != [] && r.ooseq[0].pos == r.nxt {
      DrainOne(r, stream);
      DrainStopsAtGap(TakeHead(r), stream, x);
      DrainKeepsInv(TakeHead(r), stream);
      CoversTail(r.ooseq, x);
    } else {
      OrderedFrom(r.ooseq, r.nxt, r.nxt + 1);
      if Covers(r.ooseq, x) { CoversAbove(r.ooseq, r.nxt + 1, x); }
    }
  }

  // ------------------------------------------------------------ one arrival

  lemma {:induction false} TrimFrontCut(s: Segment, nxt: int, stream: seq<byte>)
    requires Cut(s, stream) && 0 <= nxt
    ensures Cut(TrimFront(s, nxt), stream) && TrimFront(s, nxt).Top() == s.Top()
    ensures TrimFront(s, nxt).TcpLen() == 0 <==> s.TcpLen() == 0
  {
  }

  /** An in-sequence segment, absorbed and put at the head of the queue, is ready to drain. */
  lemma {:induction false} InOrderDrainable(r: Rx, s: Segment, stream: seq<byte>)
    requires Inv(r, stream) && Cut(s, stream) && s.TcpLen() > 0 && s.pos == r.nxt && r.wnd > 0
    ensures var c := ClipToWindow(s, r.nxt + r.wnd);
      && CanAbsorb(c, r.ooseq, stream) && Drainable(r.(ooseq := Absorb(c, r.ooseq)), stream)
      && Absorb(c, r.ooseq) != [] && Absorb(c, r.ooseq)[0].pos == r.nxt
  {
    var c := ClipToWindow(s, r.nxt + r.wnd);
    OrderedFrom(r.ooseq, r.nxt + 1, c.pos);
    AbsorbOrdered(c, r.ooseq, stream);
  }

  lemma {:induction false} InOrderKeepsInv(r: Rx, s: Segment, stream: seq<byte>)
    requires Inv(r, stream) && Cut(s, stream) && s.TcpLen() > 0 && s.pos == r.nxt && r.wnd > 0
    ensures var r' := TakeInOrder(r, s);
      && Inv(r', stream) && r'.nxt >= r.nxt && r.delivered <= r'.delivered
      && r'.nxt + r'.wnd == r.nxt + r.wnd && r'.annEdge == r.annEdge
  {
    InOrderDrainable(r, s, stream);
    DrainKeepsInv(r.(ooseq := Absorb(ClipToWindow(s, r.nxt + r.wnd), r.ooseq)), stream);
  }

  lemma {:induction false} EnqueueKeepsInv(r: Rx, s: Segment, stream: seq<byte>)
    requires Inv(r, stream) && Cut(s, stream) && s.TcpLen() > 0 && r.nxt < s.pos < r.nxt + r.wnd
    ensures Inv(r.(ooseq := Enqueue(r.ooseq, s, r.nxt + r.wnd)), stream)
  {
    if r.ooseq == [] {
      assert [s][1..] == [];
    } else {
      PlaceOrdered(r.ooseq, s, r.nxt + r.wnd, stream, r.nxt + 1);
    }
  }

  lemma {:induction false} ReceiveInWindowKeepsInv(r: Rx, s: Segment, memOk: bool, step: nat, stream: seq<byte>)
    requires Inv(r, stream) && Cut(s, stream) && s.TcpLen() > 0 && r.nxt <= s.pos < r.nxt + r.wnd
    ensures var r' := ReceiveInWindow(r, s, memOk, step);
      && Inv(r', stream) && r'.nxt >= r.nxt && r.delivered <= r'.delivered
      && r'.nxt + r'.wnd == r.nxt + r.wnd && r'.annEdge == r.annEdge
  {
    hide Drain, Place, Absorb, Ordered, AllCut, Cut, ClipToWindow;
    if s.pos == r.nxt {
      InOrderKeepsInv(r, s, stream);
    } else if memOk {
      EnqueueKeepsInv(r, s, stream);
    }
  }

  /** Every arrival keeps the invariant: what was handed up is exactly the stream up to
      rcv_nxt, FIN is reported exactly when the whole stream is, and the queue stays
      sorted, disjoint, strictly above rcv_nxt, true to the stream, with FIN last. */
  lemma {:induction false} ReceiveKeepsInv(r: Rx, a: Segment, memOk: bool, step: nat, stream: seq<byte>)
    requires Inv(r, stream) && Cut(a, stream)
    ensures var r' := Receive(r, a, memOk, step);
      && Inv(r', stream) && r'.nxt >= r.nxt && r.delivered <= r'.delivered
      && r'.nxt + r'.wnd == r.nxt + r.wnd && r'.annEdge == r.annEdge
  {
    var s := TrimFront(a, r.nxt);
    TrimFrontCut(a, r.nxt, stream);
    if s.TcpLen() > 0 && r.nxt <= s.pos < r.nxt + r.wnd {
      ReceiveInWindowKeepsInv(r, s, memOk, step, stream);
    }
  }

  lemma {:induction false} InOrderStopsAtGap(r: Rx, s: Segment, stream: seq<byte>, x: int)
    requires Inv(r, stream) && Cut(s, stream) && s.TcpLen() > 0 && s.pos == r.nxt && r.wnd > 0
    ensures var r' := TakeInOrder(r, s);
      var c := ClipToWindow(s, r.nxt + r.wnd);
      && (r.nxt <= x < r'.nxt ==> c.Has(x) || Covers(r.ooseq, x))
      && (x == r'.nxt ==> !c.Has(x) && !Covers(r.ooseq, x))
      && (Covers(r'.ooseq, x) <==> (c.Has(x) || Covers(r.ooseq, x)) && r'.nxt <= x)
  {
    InOrderDrainable(r, s, stream);
    var c := ClipToWindow(s, r.nxt + r.wnd);
    DrainStopsAtGap(r.(ooseq := Absorb(c, r.ooseq)), stream, x);
    AbsorbCovers(c, r.ooseq, stream, x);
  }

  /** Trimming at both ends leaves exactly the positions in between. */
  lemma {:induction false} TrimmedHas(s: Segment, nxt: int, edge: int, x: int)
    ensures s.pos <= edge ==> (ClipToWindow(s, edge).Has(x) <==> s.Has(x) && x < edge)
    ensures s.TcpLen() > 0 && nxt < s.Top() ==> (TrimFront(s, nxt).Has(x) <==> s.Has(x) && nxt <= x) || nxt <= s.pos
  {
  }

  /** How far an in-sequence arrival gets: to the first position that neither it, as far as
      it is inside the window, nor the queue holds; beyond that point nothing queued is lost. */
  lemma {:induction false} ReceiveStopsAtGap(r: Rx, a: Segment, memOk: bool, step: nat, stream: seq<byte>, x: int)
    requires Inv(r, stream) && Cut(a, stream) && !r.gotFin && r.wnd > 0 && a.pos <= r.nxt < a.Top()
    ensures var r' := Receive(r, a, memOk, step);
      var edge := r.nxt + r.wnd;
      && (r.nxt <= x < r'.nxt ==> (a.Has(x) && x < edge) || Covers(r.ooseq, x))
      && (x == r'.nxt ==> !(a.Has(x) && x < edge) && !Covers(r.ooseq, x))
      && (Covers(r'.ooseq, x) <==> Covers(r.ooseq, x) && r'.nxt <= x)
  {
    hide Drain, Absorb, Ordered, AllCut, Covers;
    var s := TrimFront(a, r.nxt);
    TrimmedHas(a, r.nxt, r.nxt + r.wnd, x);
    TrimmedHas(s, r.nxt, r.nxt + r.wnd, x);
    TrimmedHas(s, r.nxt, r.nxt + r.wnd, TakeInOrder(r, s).nxt);
    TrimFrontCut(a, r.nxt, stream);
    assert s.pos == r.nxt && Receive(r, a, memOk, step) == UpdateAnnWnd(TakeInOrder(r, s), step);
    InOrderKeepsInv(r, s, stream);
    InOrderStopsAtGap(r, s, stream, x);
    InOrderStopsAtGap(r, s, stream, TakeInOrder(r, s).nxt);
  }

  /** An arrival that starts inside the window above rcv_nxt: without memory nothing changes; otherwise only the queue
      does, and it covers exactly what it should afterwards. */
  lemma {:induction false} ReceiveQueues(r: Rx, a: Segment, memOk: bool, step: nat, stream: seq<byte>, x: int)
    requires Inv(r, stream) && Cut(a, stream) && !r.gotFin && a.TcpLen() > 0 && r.nxt < a.pos < r.nxt + r.wnd
    ensures var r' := Receive(r, a, memOk, step);
      && (!memOk ==> r' == r)
      && (memOk ==>
            && r' == r.(ooseq := r'.ooseq)
            && (r.ooseq == [] ==> (Covers(r'.ooseq, x) <==> a.Has(x)))
            && (r.ooseq != [] ==>
                  (Covers(r'.ooseq, x) <==>
                    || (Covers(r.ooseq, x) && !Forgotten(r.ooseq, a, r.nxt + r.wnd, x))
                    || (Stored(r.ooseq, a, r.nxt + r.wnd).Has(x) && !FinIgnored(r.ooseq, a, x)))))
  {
    if memOk && r.ooseq == [] {
      CoversCons(a, [], x);
      assert [a] + [] == [a];
    } else if memOk {
      PlaceCovers(r.ooseq, a, r.nxt + r.wnd, stream, r.nxt + 1, x);
    }
  }

  /** What lies outside the window, has been received already or comes after the FIN changes nothing. */
  lemma {:induction false} ReceiveIgnores(r: Rx, a: Segment, memOk: bool, step: nat)
    requires r.gotFin || a.TcpLen() == 0 || r.wnd <= 0 || a.Top() <= r.nxt || r.nxt + r.wnd <= a.pos
    ensures Receive(r, a, memOk, step) == r
  {
  }

  // -------------------------------------------------------------- the window

  const TCP_WND: int := 32 * 1024

  ghost predicate QueueInWindow(q: seq<Segment>, edge: int) {
    forall i :: 0 <= i < |q| ==> q[i].Top() <= edge
  }

  /** With the queue inside the window no assertion on rcv_wnd fails, and it stays inside. */
  lemma {:induction false} InOrderStaysInWindow(r: Rx, a: Segment, memOk: bool, step: nat, stream: seq<byte>)
    requires Inv(r, stream) && Cut(a, stream) && !r.gotFin && r.wnd > 0 && a.pos <= r.nxt < a.Top()
    requires QueueInWindow(r.ooseq, r.nxt + r.wnd)
    ensures var r' := Receive(r, a, memOk, step);
      0 <= r'.wnd < r.wnd && QueueInWindow(r'.ooseq, r'.nxt + r'.wnd)
  {
    var r' := Receive(r, a, memOk, step);
    var c := ClipToWindow(TrimFront(a, r.nxt), r.nxt + r.wnd);
    ReceiveKeepsInv(r, a, memOk, step, stream);
    ReceiveStopsAtGap(r, a, memOk, step, stream, r'.nxt);
    ReceiveStopsAtGap(r, a, memOk, step, stream, r'.nxt - 1);
    forall i | 0 <= i < |r'.ooseq| ensures r'.ooseq[i].Top() <= r'.nxt + r'.wnd {
      OrderedAbove(r'.ooseq, r'.nxt + 1, i);
      assert r'.ooseq[i].Has(r'.ooseq[i].Top() - 1);
      ReceiveStopsAtGap(r, a, memOk, step, stream, r'.ooseq[i].Top() - 1);
    }
  }

  /** The arrival is not queued because its data already is. */
  ghost predicate AlreadyQueued(q: seq<Segment>, s: Segment) {
    exists i :: 0 <= i < |q| && q[i].pos == s.pos && |s.data| <= |q[i].data|
  }

  /** Only the append path checks the window, so the queue can be driven past it: an
      out-of-order arrival keeps the queue inside the window exactly under this test. */
  ghost predicate StaysInWindow(q: seq<Segment>, s: Segment, edge: int) {
    s.Top() <= edge || (q != [] && (s.pos > q[|q| - 1].pos || AlreadyQueued(q, s)))
  }

  lemma {:induction false} QueueInWindowByPosition(q: seq<Segment>, lo: int, edge: int)
    requires Ordered(q, lo) && forall x :: Covers(q, x) ==> x < edge
    ensures QueueInWindow(q, edge)
  {
    forall i | 0 <= i < |q| ensures q[i].Top() <= edge {
      OrderedAbove(q, lo, i);
      assert q[i].Has(q[i].Top() - 1);
      assert Covers(q, q[i].Top() - 1);
    }
  }

  lemma {:induction false} EnqueueInWindowIff(q: seq<Segment>, s: Segment, edge: int, stream: seq<byte>, lo: int)
    requires CanPlace(q, s, edge, stream, lo) && QueueInWindow(q, edge)
    ensures QueueInWindow(Enqueue(q, s, edge), edge) <==> StaysInWindow(q, s, edge)
  {
    if q == [] {
      assert Enqueue(q, s, edge)[0] == s;
    } else if StaysInWindow(q, s, edge) {
      PlaceOrdered(q, s, edge, stream, lo);
      forall x | Covers(Place(q, s, edge), x) ensures x < edge {
        PlaceCovers(q, s, edge, stream, lo, x);
        if !Covers(q, x) { StoredInWindow(q, s, edge, stream, x); }
      }
      QueueInWindowByPosition(Place(q, s, edge), lo, edge);
    } else {
      PlaceCovers(q, s, edge, stream, lo, s.Top() - 1);
    }
  }

  lemma {:induction false} StoredInWindow(q: seq<Segment>, s: Segment, edge: int, stream: seq<byte>, x: int)
    requires q != [] && AllCut(q, stream) && Cut(s, stream) && QueueInWindow(q, edge) && s.pos < edge
    requires StaysInWindow(q, s, edge) && Stored(q, s, edge).Has(x) && !FinIgnored(q, s, x) && !Covers(q, x)
    ensures x < edge
  {
    if s.Top() > edge && s.pos <= q[|q| - 1].pos {
      var i :| 0 <= i < |q| && q[i].pos == s.pos && |s.data| <= |q[i].data|;
      assert Cut(q[i], stream) && !q[i].Has(x);
    }
  }

  // ---------------------------------------------------------------- whole runs

  /** Everything that touches the receive state of an open connection. */
  datatype Event =
    | Arrive(seg: Segment, memOk: bool)
    | FlushOoseq               // tcp_free_ooseq()
    | Recved(len: nat)         // tcp_recved()
    | Transmit                 // any segment sent: rcv_ann_right_edge is refreshed
    | EofAccounted             // rcv_wnd++ for the FIN

  function Step(r: Rx, e: Event, step: nat): Rx {
    match e
    case Arrive(s, memOk) => Receive(r, s, memOk, step)
    case FlushOoseq => r.(ooseq := [])
    case Recved(len) => UpdateAnnWnd(r.(wnd := Min(TCP_WND, r.wnd + len)), step)
    case Transmit => r.(annEdge := r.nxt + r.annWnd)
    case EofAccounted => if r.wnd != TCP_WND then r.(wnd := r.wnd + 1) else r
  }

  function Run(r: Rx, es: seq<Event>, step: nat): Rx
    decreases |es|
  {
    if es == [] then r else Run(Step(r, es[0], step), es[1..], step)
  }

  ghost predicate FromSender(es: seq<Event>, stream: seq<byte>) {
    forall i :: 0 <= i < |es| && es[i].Arrive? ==> Cut(es[i].seg, stream)
  }

  /** tcp_alloc() and tcp_listen_input(). */
  const START: Rx := Rx(0, TCP_WND, TCP_WND, 0, [], [], false)

  lemma {:induction false} RunKeepsInv(r: Rx, es: seq<Event>, step: nat, stream: seq<byte>)
    requires Inv(r, stream) && FromSender(es, stream)
    ensures Inv(Run(r, es, step), stream)
    decreases |es|
  {
    if es != [] {
      if es[0].Arrive? { ReceiveKeepsInv(r, es[0].seg, es[0].memOk, step, stream); }
      RunKeepsInv(Step(r, es[0], step), es[1..], step, stream);
    }
  }

  /** Of two queued segments the first ends before the second starts, and has no FIN. */
  ghost predicate Apart(q: seq<Segment>, i: int, j: int)
    requires 0 <= i < j < |q|
  {
    q[i].Top() <= q[j].pos && !q[i].fin
  }

  /** Reassembly is correct over every run: segments lost, duplicated, reordered, cut
      differently, dropped for lack of memory or flushed from the queue. */
  lemma {:induction false} ReassemblyCorrect(es: seq<Event>, step: nat, stream: seq<byte>)
    requires FromSender(es, stream)
    ensures var r := Run(START, es, step);
      && 0 <= r.nxt <= |stream| + 1
      && r.delivered == stream[..Min(r.nxt, |stream|)]
      && (r.gotFin <==> r.nxt == |stream| + 1)
      && (r.gotFin ==> r.delivered == stream)
      && AllCut(r.ooseq, stream)
      && (forall i, j {:trigger Apart(r.ooseq, i, j)} :: 0 <= i < j < |r.ooseq| ==> Apart(r.ooseq, i, j))
      && (forall i :: 0 <= i < |r.ooseq| ==> r.nxt < r.ooseq[i].pos < r.ooseq[i].Top())
  {
    RunKeepsInv(START, es, step, stream);
    var r := Run(START, es, step);
    forall i, j {:trigger Apart(r.ooseq, i, j)} | 0 <= i < j < |r.ooseq| ensures Apart(r.ooseq, i, j) {
      OrderedIsSortedAndDisjoint(r.ooseq, r.nxt + 1, i, j);
    }
    forall i | 0 <= i < |r.ooseq| ensures r.nxt < r.ooseq[i].pos < r.ooseq[i].Top() {
      OrderedAbove(r.ooseq, r.nxt + 1, i);
    }
  }

  /** The window numbers agree: advertised edge, announced window, real window. */
  ghost predicate EdgeInv(r: Rx) {
    r.annEdge <= r.nxt + r.annWnd <= r.nxt + r.wnd && 0 <= r.annWnd && r.wnd <= TCP_WND
  }

  /** ... and nothing queued lies beyond the window. */
  ghost predicate WindowInv(r: Rx) {
    EdgeInv(r) && QueueInWindow(r.ooseq, r.nxt + r.wnd)
  }

  /** The peer respects the window where the code does not check it for itself, and the
      application returns no more than it was given. */
  ghost predicate Respectful(r: Rx, e: Event) {
    match e
    case Arrive(s, _) => s.pos > r.nxt ==> StaysInWindow(r.ooseq, s, r.nxt + r.wnd)
    case Recved(len) => r.wnd + len <= TCP_WND
    case EofAccounted => r.wnd < TCP_WND
    case _ => true
  }

  ghost predicate RespectfulRun(r: Rx, es: seq<Event>, step: nat)
    decreases |es|
  {
    es == [] || (Respectful(r, es[0]) && RespectfulRun(Step(r, es[0], step), es[1..], step))
  }

  /** Sequence space given back by the application (or for the FIN). */
  function Returned(es: seq<Event>): nat
    decreases |es|
  {
    if es == [] then 0
    else (match es[0] case Recved(len) => len case EofAccounted => 1 case _ => 0) + Returned(es[1..])
  }

  lemma {:induction false} ArrivalKeepsWindow(r: Rx, a: Segment, memOk: bool, step: nat, stream: seq<byte>)
    requires Inv(r, stream) && WindowInv(r) && Cut(a, stream)
    requires a.pos > r.nxt ==> StaysInWindow(r.ooseq, a, r.nxt + r.wnd)
    ensures WindowInv(Receive(r, a, memOk, step))
  {
    var s := TrimFront(a, r.nxt);
    TrimFrontCut(a, r.nxt, stream);
    if s.TcpLen() == 0 || r.gotFin || !(r.nxt <= s.pos < r.nxt + r.wnd) {
    } else if s.pos == r.nxt {
      InOrderStaysInWindow(r, a, memOk, step, stream);
      InOrderKeepsInv(r, s, stream);
    } else if memOk {
      EnqueueInWindowIff(r.ooseq, s, r.nxt + r.wnd, stream, r.nxt + 1);
    }
  }

  lemma {:induction false} StepKeepsWindow(r: Rx, e: Event, step: nat, stream: seq<byte>)
    requires Inv(r, stream) && WindowInv(r) && Respectful(r, e)
    requires e.Arrive? ==> Cut(e.seg, stream)
    ensures var r' := Step(r, e, step);
      && WindowInv(r') && Inv(r', stream)
      && r.annEdge <= r'.annEdge && r'.nxt + r'.wnd == r.nxt + r.wnd + Returned([e])
  {
    assert [e][1..] == [];
    if e.Arrive? {
      ArrivalKeepsWindow(r, e.seg, e.memOk, step, stream);
      ReceiveKeepsInv(r, e.seg, e.memOk, step, stream);
    }
  }

  /** The announced right edge: the real one once that is a step beyond what was advertised; until then it stays, or is
      at rcv_nxt when that has passed it. */
  lemma {:induction false} AnnouncedEdge(r: Rx, step: nat)
    requires step > 0
    ensures var r', edge := UpdateAnnWnd(r, step), r.nxt + r.wnd;
      && r' == r.(annWnd := r'.annWnd)
      && (edge - r.annEdge >= step ==> r'.nxt + r'.annWnd == edge)
      && (edge - r.annEdge < step ==> r'.nxt + r'.annWnd == if r.annEdge < r.nxt then r.nxt else r.annEdge)
  {
  }

  lemma {:induction false} RunAppend(r: Rx, es: seq<Event>, fs: seq<Event>, step: nat)
    ensures Run(r, es + fs, step) == Run(Run(r, es, step), fs, step)
    decreases |es|
  {
    hide Step;
    if es == [] {
      assert [] + fs == fs;
    } else {
      assert (es + fs)[1..] == es[1..] + fs;
      RunAppend(Step(r, es[0], step), es[1..], fs, step);
    }
  }

  lemma {:induction false} DrainKeepsEdge(r: Rx)
    ensures Drain(r).annEdge == r.annEdge
    decreases |r.ooseq|
  {
    if r.ooseq != [] && r.ooseq[0].pos == r.nxt { DrainKeepsEdge(TakeHead(r)); }
  }

  lemma {:induction false} StepKeepsEdge(r: Rx, e: Event, step: nat)
    requires !e.Transmit?
    ensures Step(r, e, step).annEdge == r.annEdge
  {
    hide Drain, Absorb, Place;
    if e.Arrive? {
      var s := TrimFront(e.seg, r.nxt);
      DrainKeepsEdge(r.(ooseq := Absorb(ClipToWindow(s, r.nxt + r.wnd), r.ooseq)));
    }
  }

  lemma {:induction false} QuietKeepsEdge(r: Rx, es: seq<Event>, step: nat)
    requires forall i :: 0 <= i < |es| ==> !es[i].Transmit?
    ensures Run(r, es, step).annEdge == r.annEdge
    decreases |es|
  {
    hide Step;
    if es != [] {
      StepKeepsEdge(r, es[0], step);
      QuietKeepsEdge(Step(r, es[0], step), es[1..], step);
    }
  }

  /** Over every run rcv_ann_right_edge is the edge that the last segment sent has advertised. */
  lemma {:induction false} EdgeIsLastSent(r: Rx, es: seq<Event>, fs: seq<Event>, step: nat)
    requires forall i :: 0 <= i < |fs| ==> !fs[i].Transmit?
    ensures var sent := Run(r, es, step); Run(r, es + [Transmit] + fs, step).annEdge == sent.nxt + sent.annWnd
  {
    hide Run;
    var sent := Run(r, es, step);
    RunAppend(r, es + [Transmit], fs, step);
    RunAppend(r, es, [Transmit], step);
    RunOne(sent, Transmit, step);
    QuietKeepsEdge(Run(r, es + [Transmit], step), fs, step);
  }

  lemma {:induction false} RunOne(r: Rx, e: Event, step: nat)
    ensures Run(r, [e], step) == Step(r, e, step)
  {
    hide Step;
    assert |[e][1..]| == 0;
  }

  /** Over every run the advertised right edge never moves left (RFC 1122, 4.2.2.16), the
      announced window never exceeds the real one, no rcv_wnd assertion fails, and the
      window plus what the application still holds is always the whole buffer. */
  lemma {:induction false} WindowCorrect(r: Rx, es: seq<Event>, step: nat, stream: seq<byte>)
    requires Inv(r, stream) && WindowInv(r) && FromSender(es, stream) && RespectfulRun(r, es, step)
    ensures var r' := Run(r, es, step);
      && WindowInv(r') && 0 <= r'.annWnd <= r'.wnd <= TCP_WND
      && r.annEdge <= r'.annEdge
      && r'.wnd + (r'.nxt - r.nxt - Returned(es)) == r.wnd
    decreases |es|
  {
    if es != [] {
      StepKeepsWindow(r, es[0], step, stream);
      assert Returned(es) == Returned([es[0]]) + Returned(es[1..]) by { assert [es[0]][1..] == []; }
      WindowCorrect(Step(r, es[0], step), es[1..], step, stream);
    }
  }

  // ------------------------------------------------- runs that show what is lost

  lemma {:induction false} RunTwo(r: Rx, a: Event, b: Event, step: nat)
    ensures Run(r, [a], step) == Step(r, a, step) && Run(r, [a, b], step) == Step(Step(r, a, step), b, step)
  {
    hide Step;
    var r1 := Step(r, a, step);
    assert |[a][1..]| == 0 && |[b][1..]| == 0 && [a, b][1..] == [b];
    assert Run(r1, [b], step) == Step(r1, b, step);
  }

  /** The bytes stream[i..j], with or without the FIN. */
  function Piece(stream: seq<byte>, i: nat, j: nat, fin: bool): Segment
    requires i <= j <= |stream|
  {
    Segment(i, stream[i..j], fin)
  }

  /** Four bytes are queued; a retransmission of the second forgets the last two. */
  lemma {:induction false} ForgottenExample(stream: seq<byte>, step: nat)
    requires |stream| >= 14
    ensures var es := [Arrive(Piece(stream, 10, 14, false), true), Arrive(Piece(stream, 11, 12, false), true)];
      && FromSender(es, stream) && Covers(Run(START, es[..1], step).ooseq, 13)
      && Run(START, es, step) == START.(ooseq := [Piece(stream, 10, 11, false), Piece(stream, 11, 12, false)])
      && !Covers(Run(START, es, step).ooseq, 13)
  {
    var p, q := Piece(stream, 10, 14, false), Piece(stream, 11, 12, false);
    var a, b := Arrive(p, true), Arrive(q, true);
    assert [a, b][..1] == [a];
    RunTwo(START, a, b, step);
    assert Step(START, a, step) == START.(ooseq := [p]);
    assert [p][0].Has(13);
    assert p.data[..1] == stream[10..11];
  }

  /** The last bytes are queued without FIN; the same bytes with FIN change nothing. */
  lemma {:induction false} FinIgnoredExample(stream: seq<byte>, step: nat)
    requires |stream| == 10
    ensures var es := [Arrive(Piece(stream, 5, 10, false), true), Arrive(Piece(stream, 5, 10, true), true)];
      && FromSender(es, stream) && es[1].seg.Has(10)
      && Run(START, es, step) == START.(ooseq := [Piece(stream, 5, 10, false)]) && !Covers(Run(START, es, step).ooseq, 10)
  {
    var p, q := Piece(stream, 5, 10, false), Piece(stream, 5, 10, true);
    RunTwo(START, Arrive(p, true), Arrive(q, true), step);
    assert Step(START, Arrive(p, true), step) == START.(ooseq := [p]);
  }

  /** A lone out-of-order segment that overruns the window is queued whole, and once the gap closes
      rcv_wnd is exceeded. */
  lemma {:induction false} OverrunExample(stream: seq<byte>, step: nat)
    requires |stream| > TCP_WND
    ensures var es := [Arrive(Piece(stream, 1, TCP_WND + 1, false), true), Arrive(Piece(stream, 0, 1, false), true)];
      FromSender(es, stream) && Run(START, es, step).wnd == -1
  {
    var late, first := Piece(stream, 1, TCP_WND + 1, false), Piece(stream, 0, 1, false);
    RunTwo(START, Arrive(late, true), Arrive(first, true), step);
    var r1 := START.(ooseq := [late]);
    assert Step(START, Arrive(late, true), step) == r1;
    OverrunDrains(late, first);
  }

  lemma {:induction false} OverrunDrains(late: Segment, first: Segment)
    requires late.pos == 1 && |late.data| == TCP_WND && !late.fin && first.pos == 0 && |first.data| == 1 && !first.fin
    ensures TakeInOrder(START.(ooseq := [late]), first).wnd == -1
  {
    var r1 := START.(ooseq := [late]);
    assert ClipToWindow(first, TCP_WND) == first;
    assert Absorb(first, [late]) == [first, late];
    var r2 := r1.(ooseq := [first, late]);
    assert [first, late][1..] == [late] && [late][1..] == [];
    assert TakeHead(r2).ooseq == [late] && TakeHead(r2).nxt == 1 && TakeHead(r2).wnd == TCP_WND - 1;
    var r4 := TakeHead(TakeHead(r2));
    assert Drain(r2) == Drain(TakeHead(r2)) == Drain(r4) == r4;
  }
}
