/** tcp_out.c with the ACK processing of tcp_in.c: the send queues of one connection, from
    tcp_write() to the acknowledgement, until a FIN is queued. Segments carry 32-bit sequence
    numbers, their pbufs and the checksum kept while copying. */
module TcpOut {
  import opened SeqNum
  import opened InetChksum

  const TCP_SND_BUF: int := 32 * 1024
  const TCP_SND_QUEUELEN: int := 90         // (4 * TCP_SND_BUF + TCP_MSS - 1) / TCP_MSS
  const TCP_OVERSIZE: int := 1460           // TCP_MSS
  const MEM_ALIGNMENT: int := 1             // opt.h; this build does not override it

  /** err_t; Halted stands for an LWIP_ASSERT that does not hold. */
  datatype Err = ErrOk | ErrMem | ErrConn | ErrVal | ErrIf | Halted

  /** Payload bytes of one pbuf; `rom` pbufs refer to the caller's memory. */
  datatype Pbuf = Pbuf(data: seq<byte>, rom: bool)

  /** A tcp_seg: sequence number, pbuf chain (payload part) and checksum pair. */
  datatype Seg = Seg(seqno: u32, pbufs: seq<Pbuf>, chk: SegChksum)

  function Data(ps: seq<Pbuf>): seq<byte> {
    if ps == [] then [] else ps[0].data + Data(ps[1..])
  }

  function Len(s: Seg): nat { |Data(s.pbufs)| }

  /** All payload on a queue, in order. */
  function Bytes(q: seq<Seg>): seq<byte> {
    if q == [] then [] else Data(q[0].pbufs) + Bytes(q[1..])
  }

  /** pbuf_clen() over a queue */
  function Clen(q: seq<Seg>): nat {
    if q == [] then 0 else |q[0].pbufs| + Clen(q[1..])
  }

  /** The segments follow one another without gap or overlap from stream position `pos`;
      each is non-empty and fits `mss`. */
  ghost predicate Chained(q: seq<Seg>, iss: int, pos: int, mss: int) {
    q == [] || (SegAt(q[0], iss, pos, mss) && Chained(q[1..], iss, pos + Len(q[0]), mss))
  }

  ghost predicate SegAt(s: Seg, iss: int, pos: int, mss: int) {
    s.seqno == Wrap(iss + pos) && 0 < Len(s) <= mss && s.pbufs != [] && Filled(s.pbufs)
  }

  /** Only the first pbuf, which has the headers, may be without payload. */
  ghost predicate Filled(ps: seq<Pbuf>) {
    forall i :: 0 < i < |ps| ==> ps[i].data != []
  }

  lemma {:induction false} FilledCount(ps: seq<Pbuf>)
    requires Filled(ps) && ps != []
    ensures |ps| <= |Data(ps)| + 1 && (ps[0].data != [] ==> |ps| <= |Data(ps)|)
    decreases |ps|
  {
    if |ps| > 1 {
      assert ps[1..][0] == ps[1];
      FilledCount(ps[1..]);
    } else {
      assert |ps[1..]| == 0;
    }
  }

  /** A queue has at most two pbufs for every byte, and one less if some segment
      has a pbuf only for every byte. */
  lemma {:induction false} ClenBound(q: seq<Seg>, iss: int, pos: int, mss: int, k: nat)
    requires Chained(q, iss, pos, mss) && k <= |q|
    ensures Clen(q) <= 2 * |Bytes(q)|
    ensures k < |q| && |q[k].pbufs| == 1 ==> Clen(q) < 2 * |Bytes(q)|
    decreases |q|
  {
    if q != [] {
      FilledCount(q[0].pbufs);
      if k > 0 { assert q[1..][k - 1..] == q[k..]; }
      ClenBound(q[1..], iss, pos + Len(q[0]), mss, if k > 0 then k - 1 else |q[1..]|);
    }
  }

  /** A segment carries the checksum of its payload. */
  ghost predicate Summed(s: Seg, le: bool) {
    ChksumOf(le, s.chk, Data(s.pbufs))
  }

  ghost predicate AllSummed(q: seq<Seg>, le: bool) {
    forall i :: 0 <= i < |q| ==> Summed(q[i], le)
  }

  // ------------------------------------------------------------ queues as sequences

  lemma {:induction false} DataAppend(a: seq<Pbuf>, b: seq<Pbuf>)
    ensures Data(a + b) == Data(a) + Data(b)
  {
    if a == [] {
      assert a + b == b;
    } else {
      assert (a + b)[1..] == a[1..] + b;
      DataAppend(a[1..], b);
    }
  }

  lemma {:induction false} QueueUnfold(a: seq<Seg>, b: seq<Seg>)
    requires a != []
    ensures Bytes(a + b) == Data(a[0].pbufs) + Bytes(a[1..] + b) && Clen(a + b) == |a[0].pbufs| + Clen(a[1..] + b)
    ensures Bytes(a) == Data(a[0].pbufs) + Bytes(a[1..]) && Clen(a) == |a[0].pbufs| + Clen(a[1..])
  {
    hide Data;
    assert (a + b)[1..] == a[1..] + b;
  }

  lemma {:induction false} QueueAppend(a: seq<Seg>, b: seq<Seg>)
    ensures Bytes(a + b) == Bytes(a) + Bytes(b) && Clen(a + b) == Clen(a) + Clen(b)
  {
    hide Bytes, Clen;
    if a == [] {
      assert a + b == b;
      NoBytes();
    } else {
      QueueAppend(a[1..], b);
      QueueUnfold(a, b);
    }
  }

  lemma {:induction false} ChainedAppend(a: seq<Seg>, b: seq<Seg>, iss: int, pos: int, mss: int)
    ensures Chained(a + b, iss, pos, mss) <==> Chained(a, iss, pos, mss) && Chained(b, iss, pos + |Bytes(a)|, mss)
  {
    if a == [] {
      assert a + b == b;
    } else {
      assert (a + b)[1..] == a[1..] + b;
      ChainedAppend(a[1..], b, iss, pos + Len(a[0]), mss);
    }
  }

  lemma {:induction false} QueueOne(s: Seg, iss: int, pos: int, mss: int)
    ensures Bytes([s]) == Data(s.pbufs) && Clen([s]) == |s.pbufs|
    ensures Chained([s], iss, pos, mss) <==> SegAt(s, iss, pos, mss)
  {
    assert [s][1..] == [];
  }

  lemma {:induction false} ChainedWeaken(q: seq<Seg>, iss: int, pos: int, mss: int, mss': int)
    requires Chained(q, iss, pos, mss) && mss <= mss'
    ensures Chained(q, iss, pos, mss')
  {
    if q != [] { ChainedWeaken(q[1..], iss, pos + Len(q[0]), mss, mss'); }
  }

  // ------------------------------------------------------------------- tcp_write()

  /** The segment size tcp_write() uses: never more than half the largest window seen. */
  function MssLocal(mss: u16, sndWndMax: u16): (r: u16)
    requires mss > 0
    ensures 0 < r <= mss && (2 <= sndWndMax ==> 2 * r <= sndWndMax)
  {
    var m := if mss <= sndWndMax / 2 then mss else sndWndMax / 2;
    if m > 0 then m else mss
  }

  /** The largest segment within mss of which two fit the largest window, or mss if none does. */
  lemma {:induction false} MssLocalLargest(mss: u16, sndWndMax: u16, m: int)
    requires mss > 0
    ensures m <= MssLocal(mss, sndWndMax) <==> m <= mss && (sndWndMax < 2 || 2 * m <= sndWndMax)
  {
  }

  /** tcp_write() asserts that the last unsent segment fits mss_local. The window only grows,
      but mss_local follows it exactly under this condition: a peer that first announces
      less than 2 bytes makes it shrink later. */
  lemma {:induction false} MssLocalGrows(mss: u16, w: u16, w': u16)
    requires mss > 0 && w <= w'
    ensures MssLocal(mss, w) <= MssLocal(mss, w') <==> 2 <= w || w' < 2 || mss <= w' / 2
  {
  }

  /** LWIP_MEM_ALIGN_SIZE */
  function AlignSize(n: nat): (r: nat)
    ensures n <= r < n + MEM_ALIGNMENT
  {
    (n + MEM_ALIGNMENT - 1) / MEM_ALIGNMENT * MEM_ALIGNMENT
  }

  /** tcp_pbuf_prealloc(): how much to allocate for `length` bytes. */
  function PreallocLen(length: nat, maxLength: nat, more: bool, nodelay: bool, firstSeg: bool, idle: bool): (alloc: nat)
    requires length <= maxLength
    ensures length <= alloc <= maxLength
    // room for more only if more is expected before the segment can go out
    ensures !more && (nodelay || (firstSeg && idle)) ==> alloc == length
    ensures (more || !(nodelay || (firstSeg && idle))) ==> alloc == maxLength || alloc >= length + TCP_OVERSIZE
    ensures alloc < length + TCP_OVERSIZE + MEM_ALIGNMENT
  {
    if length < maxLength && (more || (!nodelay && (!firstSeg || !idle))) then
      var wanted := AlignSize(length + TCP_OVERSIZE);
      if maxLength <= wanted then maxLength else wanted
    else
      length
  }

  /** How a write is to be carried out. */
  datatype WriteMode = WriteMode(copy: bool, more: bool, nodelay: bool, idle: bool)

  /** Pbufs of a new segment: headers and copied data in one, or a reference behind the headers. */
  function PerSegment(copy: bool): nat { if copy then 1 else 2 }

  /** How many segments of at most `mss` bytes `len` bytes make. */
  function Segments(len: nat, mss: nat): nat
    requires mss > 0
  {
    if len == 0 then 0 else 1 + Segments(if len <= mss then 0 else len - mss, mss)
  }

  /** The least number of segments that can hold the bytes. */
  lemma {:induction false} SegmentsLeast(len: nat, mss: nat)
    requires mss > 0
    ensures len <= Segments(len, mss) * mss && (len > 0 ==> (Segments(len, mss) - 1) * mss < len)
  {
    if len > mss {
      var n := Segments(len - mss, mss);
      SegmentsLeast(len - mss, mss);
      assert (n + 1) * mss == n * mss + mss && n * mss == (n - 1) * mss + mss;
    } else if len > 0 {
      assert Segments(0, mss) == 0 && Segments(len, mss) == 1;
    }
  }

  /** Checksum of freshly copied or referenced data. */
  method ChecksumOf(le: bool, data: seq<byte>) returns (c: SegChksum)
    ensures ChksumOf(le, c, data)
  {
    assert [] + data == data;
    c := AddChksum(le, NO_DATA, Sum16(le, data), |data|, [], data);
  }

  /** One new segment of phase 3: pbufs, queue length check, tcp_create_segment(). */
  method MakeSegment(bytes: seq<byte>, mode: WriteMode, mss: u16, seqno: u32, first: bool, mem: nat,
                     queuelen: nat, oversize: nat, le: bool)
    returns (ok: bool, seg: Seg, mem': nat, queuelen': nat, oversize': nat)
    requires 0 < |bytes| <= mss && oversize == 0
    ensures ok ==> seg.seqno == seqno && seg.pbufs != [] && Data(seg.pbufs) == bytes && Summed(seg, le) && Filled(seg.pbufs)
    ensures ok ==> queuelen' == queuelen + |seg.pbufs| == queuelen + PerSegment(mode.copy) && queuelen' <= TCP_SND_QUEUELEN
    ensures ok ==> |bytes| + oversize' <= mss && (oversize' > 0 ==> !seg.pbufs[|seg.pbufs| - 1].rom)
    // room for more only if more is expected
    ensures ok && (!mode.copy || (!mode.more && (mode.nodelay || (first && mode.idle)))) ==> oversize' == 0
    ensures ok && mode.copy && (mode.more || !(mode.nodelay || (first && mode.idle))) ==> |bytes| + oversize' == mss || oversize' >= TCP_OVERSIZE
    // data that is not copied stays in the caller's memory
    ensures ok ==> (seg.pbufs[|seg.pbufs| - 1].rom <==> !mode.copy) && (forall k :: 0 <= k < |seg.pbufs| - 1 ==> !seg.pbufs[k].rom)
    ensures ok ==> mem' + PerSegment(mode.copy) + 1 == mem
    ensures mem > PerSegment(mode.copy) && queuelen + PerSegment(mode.copy) <= TCP_SND_QUEUELEN ==> ok
  {
    ok, mem', oversize' := true, mem, oversize;
    var pbufs;
    if mode.copy {
      var alloc := PreallocLen(|bytes|, mss, mode.more, mode.nodelay, first, mode.idle);
      oversize' := alloc - |bytes|;
      pbufs := [Pbuf(bytes, false)];
    } else {
      pbufs := [Pbuf([], false), Pbuf(bytes, true)];
    }
    PbufsData(bytes);
    queuelen' := queuelen + |pbufs|;
    var chk := ChecksumOf(le, bytes);
    seg := Seg(seqno, pbufs, chk);
    // one allocation per pbuf and one for the tcp_seg
    if mem < |pbufs| + 1 || queuelen' > TCP_SND_QUEUELEN {
      ok := false;
      return;
    }
    mem' := mem - (|pbufs| + 1);
  }

  /** The queue `q` is the stretch stream[from..to]. */
  ghost predicate Holds(q: seq<Seg>, stream: seq<byte>, from: int, to: int, iss: int, mss: int) {
    0 <= from <= to <= |stream| && Bytes(q) == stream[from..to] && Chained(q, iss, from, mss)
  }

  lemma {:induction false} SliceParts(data: seq<byte>, i: int, j: int, k: int)
    requires 0 <= i <= j <= k <= |data|
    ensures data[i..j] + data[j..k] == data[i..k]
  {
  }

  /** Stretches that meet can be joined. */
  lemma {:induction false} HoldsJoin(a: seq<Seg>, b: seq<Seg>, stream: seq<byte>, i: int, j: int, k: int, iss: int, mss: int)
    requires Holds(a, stream, i, j, iss, mss) && Holds(b, stream, j, k, iss, mss)
    ensures Holds(a + b, stream, i, k, iss, mss) && Clen(a + b) == Clen(a) + Clen(b)
  {
    hide Chained, Bytes, Clen;
    QueueAppend(a, b);
    ChainedAppend(a, b, iss, i, mss);
    assert i + |Bytes(a)| == j;
    assert Chained(b, iss, i + |Bytes(a)|, mss);
    calc {
      Bytes(a + b);
      Bytes(a) + Bytes(b);
      stream[i..j] + stream[j..k];
      { SliceParts(stream, i, j, k); }
      stream[i..k];
    }
  }

  /** ... and a stretch can be cut between any two of its segments. */
  lemma {:induction false} HoldsSplit(a: seq<Seg>, b: seq<Seg>, stream: seq<byte>, i: int, k: int, iss: int, mss: int)
    requires Holds(a + b, stream, i, k, iss, mss)
    ensures var j := i + |Bytes(a)|;
      Holds(a, stream, i, j, iss, mss) && Holds(b, stream, j, k, iss, mss) && Clen(a + b) == Clen(a) + Clen(b)
  {
    hide Chained, Bytes, Clen;
    QueueAppend(a, b);
    ChainedAppend(a, b, iss, i, mss);
    var j := i + |Bytes(a)|;
    assert |stream[i..k]| == k - i;
    assert Bytes(a) == (Bytes(a) + Bytes(b))[..j - i] && Bytes(b) == (Bytes(a) + Bytes(b))[j - i..];
    assert stream[i..k][..j - i] == stream[i..j] && stream[i..k][j - i..] == stream[j..k];
  }

  lemma {:induction false} HoldsOne(s: Seg, stream: seq<byte>, i: int, j: int, iss: int, mss: int)
    requires 0 <= i <= j <= |stream|
    ensures Holds([s], stream, i, j, iss, mss) <==> Data(s.pbufs) == stream[i..j] && SegAt(s, iss, i, mss)
  {
    QueueOne(s, iss, i, mss);
  }

  /** What is held does not depend on what the stream continues with. */
  lemma {:induction false} HoldsLonger(q: seq<Seg>, stream: seq<byte>, more: seq<byte>, i: int, j: int, iss: int, mss: int)
    requires Holds(q, stream, i, j, iss, mss)
    ensures Holds(q, stream + more, i, j, iss, mss)
  {
    assert (stream + more)[i..j] == stream[i..j];
  }

  lemma {:induction false} HoldsNothing(stream: seq<byte>, i: int, iss: int, mss: int)
    requires 0 <= i <= |stream|
    ensures Holds([], stream, i, i, iss, mss) && Clen([]) == 0
  {
  }

  lemma {:induction false} HoldsMore(q: seq<Seg>, s: Seg, written: seq<byte>, data: seq<byte>, from: int, pos: int, next: int, iss: int, mss: int)
    requires 0 <= from <= pos < next <= |data| && next - pos <= mss && s.pbufs != [] && Filled(s.pbufs)
    requires Holds(q, written + data, |written| + from, |written| + pos, iss, mss)
    requires Data(s.pbufs) == data[pos..next] && s.seqno == Wrap(iss + |written| + pos)
    ensures Holds(q + [s], written + data, |written| + from, |written| + next, iss, mss)
    ensures Clen(q + [s]) == Clen(q) + |s.pbufs|
  {
    hide Chained, Bytes, Clen, Data;
    var n := |written|;
    assert data[pos..next] == (written + data)[n + pos..n + next];
    HoldsOne(s, written + data, n + pos, n + next, iss, mss);
    HoldsJoin(q, [s], written + data, n + from, n + pos, n + next, iss, mss);
    QueueOne(s, iss, n + pos, mss);
  }

  /** Spare room behind the last unsent segment. */
  ghost predicate SpareOk(unsent: seq<Seg>, oversize: nat, mss: int) {
    if unsent == [] then oversize == 0
    else var last := unsent[|unsent| - 1];
      Len(last) + oversize <= mss && (oversize > 0 ==> last.pbufs != [] && !last.pbufs[|last.pbufs| - 1].rom)
  }

  /** Memory and queue room for `n` more segments. */
  predicate Enough(copy: bool, mem: nat, queuelen: nat, n: nat) {
    mem >= n * (PerSegment(copy) + 1) && queuelen + n * PerSegment(copy) <= TCP_SND_QUEUELEN
  }

  lemma {:induction false} SegmentsStep(len: nat, mss: nat)
    requires mss > 0 && len > 0
    ensures Segments(len, mss) == 1 + Segments(if len <= mss then 0 else len - mss, mss) && Segments(0, mss) == 0
  {
  }

  lemma {:induction false} OneSegment(copy: bool, mem: nat, queuelen: nat, len: nat, mss: nat)
    requires mss > 0 && len > 0 && Enough(copy, mem, queuelen, Segments(len, mss))
    ensures mem > PerSegment(copy) && queuelen + PerSegment(copy) <= TCP_SND_QUEUELEN
    ensures Enough(copy, mem - (PerSegment(copy) + 1), queuelen + PerSegment(copy), Segments(if len <= mss then 0 else len - mss, mss))
  {
    var n := Segments(if len <= mss then 0 else len - mss, mss);
    assert Segments(len, mss) == n + 1;
  }

  lemma {:induction false} NoPbufs()
    ensures Clen([]) == 0
  {
  }

  /** Phase 3: new segments for stream[pos..], the part of the write not yet placed. `mem` is the
      number of allocations that still succeed; `queuelen` counts the pbufs queued so far. */
  method BuildSegments(data: seq<byte>, from: nat, mode: WriteMode, mss: u16, lbb: u32, mem: nat,
                       queuelen: nat, oversize: nat, le: bool, ghost iss: int, ghost written: seq<byte>)
    returns (ok: bool, queue: seq<Seg>, queuelen': nat, oversize': nat)
    requires mss > 0 && from <= |data| && lbb == Wrap(iss + |written|) && (from < |data| ==> oversize == 0)
    ensures ok ==> Holds(queue, written + data, |written| + from, |written| + |data|, iss, mss) && AllSummed(queue, le)
    ensures ok ==> queuelen' == queuelen + Clen(queue) && (queuelen' <= queuelen || queuelen' <= TCP_SND_QUEUELEN)
    ensures ok ==> if queue == [] then oversize' == oversize && from == |data| else SpareOk(queue, oversize', mss)
    ensures Enough(mode.copy, mem, queuelen, Segments(|data| - from, mss)) ==> ok
    ensures ok ==> |queue| == Segments(|data| - from, mss) && forall i :: 0 <= i < |queue| ==> Len(queue[i]) <= mss
    ensures ok ==> forall i :: 0 <= i < |queue| - 1 ==> Len(queue[i]) == mss
  {
    hide Chained, Bytes, Clen, Data, Wrap, ChksumOf, Holds, Segments, Enough, Filled;
    SegmentsStep(1, mss);
    HoldsNothing(written + data, |written| + from, iss, mss);
    NoPbufs();
    var pos := from;
    var left: nat := mem;
    ok, queue, queuelen', oversize' := true, [], queuelen, oversize;
    ghost var stream, n := written + data, |written|;
    while pos < |data|
      invariant from <= pos <= |data| && Holds(queue, stream, n + from, n + pos, iss, mss) && AllSummed(queue, le)
      invariant queuelen' == queuelen + Clen(queue) && (queuelen' <= queuelen || queuelen' <= TCP_SND_QUEUELEN)
      invariant if queue == [] then oversize' == oversize && pos == from else SpareOk(queue, oversize', mss)
      invariant pos < |data| ==> oversize' == 0
      invariant Enough(mode.copy, mem, queuelen, Segments(|data| - from, mss)) ==> Enough(mode.copy, left, queuelen', Segments(|data| - pos, mss))
      invariant |queue| + Segments(|data| - pos, mss) == Segments(|data| - from, mss)
      invariant forall i :: 0 <= i < |queue| ==> Len(queue[i]) <= mss
      invariant forall i :: 0 <= i < |queue| && (pos < |data| || i < |queue| - 1) ==> Len(queue[i]) == mss
    {
      SegmentsStep(|data| - pos, mss);
      if Enough(mode.copy, left, queuelen', Segments(|data| - pos, mss)) { OneSegment(mode.copy, left, queuelen', |data| - pos, mss); }
      var seglen := if |data| - pos <= mss then |data| - pos else mss;
      var bytes := data[pos..pos + seglen];
      WrapAdd(iss + n, pos);
      var seg;
      ok, seg, left, queuelen', oversize' :=
        MakeSegment(bytes, mode, mss, Wrap(lbb + pos), queue == [], left, queuelen', oversize', le);
      if !ok {
        return;
      }
      HoldsMore(queue, seg, written, data, from, pos, pos + seglen, iss, mss);
      queue := queue + [seg];
      pos := pos + seglen;
    }
  }

  lemma {:induction false} PbufsData(b: seq<byte>)
    ensures Data([Pbuf(b, false)]) == b
    ensures Data([Pbuf([], false), Pbuf(b, true)]) == b
    ensures Filled([Pbuf(b, false)]) && (b != [] ==> Filled([Pbuf([], false), Pbuf(b, true)]))
  {
    assert |[Pbuf(b, false)][1..]| == 0;
    assert [Pbuf([], false), Pbuf(b, true)][1..] == [Pbuf(b, true)];
    assert |[Pbuf(b, true)][1..]| == 0;
  }

  /** Bytes copied into the spare room of the last pbuf, or a ROM reference made longer. */
  function Lengthen(ps: seq<Pbuf>, more: seq<byte>): seq<Pbuf>
    requires ps != []
  {
    ps[|ps| - 1 := Pbuf(ps[|ps| - 1].data + more, ps[|ps| - 1].rom)]
  }

  lemma {:induction false} LengthenData(ps: seq<Pbuf>, more: seq<byte>)
    requires ps != []
    ensures Data(Lengthen(ps, more)) == Data(ps) + more
  {
    if |ps| == 1 {
      assert |ps[1..]| == 0 && |Lengthen(ps, more)[1..]| == 0;
    } else {
      assert Lengthen(ps, more)[1..] == Lengthen(ps[1..], more);
      LengthenData(ps[1..], more);
    }
  }

  /** The last unsent segment with `more` behind its payload and the checksum to match. */
  method Grow(s: Seg, pbufs: seq<Pbuf>, more: seq<byte>, le: bool) returns (s': Seg)
    requires Summed(s, le) && Data(pbufs) == Data(s.pbufs) + more
    ensures Summed(s', le) && s'.pbufs == pbufs && s'.seqno == s.seqno
  {
    var chk := AddChksum(le, s.chk, Sum16(le, more), |more|, Data(s.pbufs), more);
    s' := Seg(s.seqno, pbufs, chk);
  }

  /** Phase 1: into the spare room of the oversized last pbuf. */
  method FillSpareRoom(last: Seg, data: seq<byte>, oversize: nat, le: bool, ghost mss: int)
    returns (last': Seg, pos: nat, oversize': nat)
    requires Summed(last, le) && last.pbufs != [] && SpareOk([last], oversize, mss)
    ensures Summed(last', le) && last'.seqno == last.seqno && |last'.pbufs| == |last.pbufs|
    ensures Filled(last.pbufs) ==> Filled(last'.pbufs)
    ensures SpareOk([last'], oversize', mss) && pos <= |data| && (pos < |data| ==> oversize' == 0) && pos + oversize' == oversize
    ensures Data(last'.pbufs) == Data(last.pbufs) + data[..pos]
  {
    pos := if oversize <= |data| then oversize else |data|;
    oversize' := oversize - pos;
    LengthenData(last.pbufs, data[..pos]);
    last' := last;
    if pos > 0 {
      last' := Grow(last, Lengthen(last.pbufs, data[..pos]), data[..pos], le);
    } else {
      assert data[..0] == [];
    }
  }

  /** Phase 2: one more pbuf behind the segment, or a longer ROM reference when the caller's
      data directly follows it in memory. */
  method ChainPbuf(last: Seg, bytes: seq<byte>, mode: WriteMode, space: nat, adjacent: bool, mem: nat, le: bool)
    returns (ok: bool, last': Seg, oversize': nat, mem': nat)
    requires Summed(last, le) && last.pbufs != [] && 0 < |bytes| <= space
    ensures ok && Filled(last.pbufs) ==> Filled(last'.pbufs)
    ensures ok ==> Summed(last', le) && last'.seqno == last.seqno
    ensures ok ==> |bytes| + oversize' <= space && (oversize' > 0 ==> last'.pbufs != [] && !last'.pbufs[|last'.pbufs| - 1].rom)
    ensures ok ==> Data(last'.pbufs) == Data(last.pbufs) + bytes
    ensures ok ==> |last.pbufs| <= |last'.pbufs| <= |last.pbufs| + 1 && mem' + 1 >= mem
    ensures ok ==> (last'.pbufs[|last'.pbufs| - 1].rom <==> !mode.copy) && mem' <= mem
    // a reference that goes on costs nothing
    ensures var longer := !mode.copy && last.pbufs[|last.pbufs| - 1].rom && adjacent;
      && (longer ==> ok && |last'.pbufs| == |last.pbufs| && mem' == mem)
      && (!longer && ok ==> |last'.pbufs| == |last.pbufs| + 1 && mem' == mem - 1)
    // room for more only if more is expected
    ensures ok && (!mode.copy || (!mode.more && mode.nodelay)) ==> oversize' == 0
    ensures ok && mode.copy && (mode.more || !mode.nodelay) ==> |bytes| + oversize' == space || oversize' >= TCP_OVERSIZE
    ensures mem > 0 ==> ok
  {
    ok, last', oversize', mem' := true, last, 0, mem;
    var ps := last.pbufs;
    if !mode.copy && ps[|ps| - 1].rom && adjacent {
      LengthenData(ps, bytes);
      ps := Lengthen(ps, bytes);
    } else {
      if mem == 0 {
        ok := false;
        return;
      }
      mem' := mem - 1;
      if mode.copy {
        var alloc := PreallocLen(|bytes|, space, mode.more, mode.nodelay, true, false);
        oversize' := alloc - |bytes|;
      }
      var p := Pbuf(bytes, !mode.copy);
      DataAppend(ps, [p]);
      assert Data([p]) == bytes by { assert |[p][1..]| == 0; }
      ps := ps + [p];
    }
    last' := Grow(last, ps, bytes, le);
  }

  /** Phases 1 and 2 together: as much of `data` as fits behind the last unsent segment. */
  method ExtendLast(last: Seg, data: seq<byte>, mode: WriteMode, mss: u16, oversize: nat, adjacent: bool, mem: nat, le: bool)
    returns (ok: bool, last': Seg, pos: nat, oversize': nat, mem': nat)
    requires Summed(last, le) && last.pbufs != [] && SpareOk([last], oversize, mss)
    ensures ok ==> Summed(last', le) && last'.seqno == last.seqno
    ensures ok ==> SpareOk([last'], oversize', mss) && pos <= |data| && (pos < |data| ==> oversize' == 0)
    ensures ok ==> Data(last'.pbufs) == Data(last.pbufs) + data[..pos]
    ensures ok ==> |last.pbufs| <= |last'.pbufs| <= |last.pbufs| + (if data == [] then 0 else 1) && mem' + 1 >= mem
    ensures ok && Filled(last.pbufs) ==> Filled(last'.pbufs)
    ensures ok ==> pos == if |data| <= mss - Len(last) then |data| else mss - Len(last)
    ensures ok && data == [] ==> oversize' == oversize
    ensures mem > 0 ==> ok
  {
    hide Filled;
    ok, mem' := true, mem;
    last', pos, oversize' := FillSpareRoom(last, data, oversize, le, mss);
    var space := mss - Len(last');
    if pos < |data| && space > 0 {
      var seglen := if space <= |data| - pos then space else |data| - pos;
      var bytes := data[pos..pos + seglen];
      ok, last', oversize', mem' := ChainPbuf(last', bytes, mode, space, adjacent, mem, le);
      ConcatParts(Data(last.pbufs), data, pos, pos + seglen);
      pos := pos + seglen;
    }
  }

  lemma {:induction false} ConcatParts(a: seq<byte>, data: seq<byte>, i: nat, j: nat)
    requires i <= j <= |data|
    ensures a + data[..i] + data[i..j] == a + data[..j]
  {
  }

  // -------------------------------------------------------------- the connection

  lemma {:induction false} SliceAcross(a: seq<byte>, b: seq<byte>, i: nat, pos: nat)
    requires i <= |a| && pos <= |b|
    ensures a[i..|a|] + b[..pos] == (a + b)[i..|a| + pos]
  {
    var l, r := a[i..|a|] + b[..pos], (a + b)[i..|a| + pos];
    forall k | 0 <= k < |l| ensures l[k] == r[k] { }
  }

  lemma {:induction false} HoldsIn(s: Seg, stream: seq<byte>, i: int, iss: int, mss: int)
    requires Holds([s], stream, i, |stream|, iss, mss)
    ensures 0 <= i <= |stream|
  {
  }

  /** The last segment made longer: it now also holds data[..pos]. */
  lemma {:induction false} HoldsLast(last: Seg, last': Seg, written: seq<byte>, data: seq<byte>, i: int, pos: nat, iss: int, mss: int)
    requires Holds([last], written, i, |written|, iss, mss) && pos <= |data|
    requires last'.seqno == last.seqno && last'.pbufs != [] && Data(last'.pbufs) == Data(last.pbufs) + data[..pos]
    requires Len(last') <= mss && Filled(last'.pbufs)
    ensures Holds([last'], written + data, i, |written| + pos, iss, mss)
  {
    hide Data, Filled, Wrap, Holds, Chained, Bytes;
    HoldsIn(last, written, i, iss, mss);
    HoldsOne(last, written, i, |written|, iss, mss);
    SliceAcross(written, data, i, pos);
    HoldsOne(last', written + data, i, |written| + pos, iss, mss);
  }

  /** The commit of tcp_write(): a longer last segment, then the new ones. */
  lemma {:induction false} CommitWrite(q: seq<Seg>, last: Seg, last': Seg, queue: seq<Seg>, written: seq<byte>, data: seq<byte>, pos: nat,
                    base: int, iss: int, mss: int)
    requires Holds(q + [last], written, base, |written|, iss, mss) && pos <= |data|
    requires last'.seqno == last.seqno && last'.pbufs != [] && Data(last'.pbufs) == Data(last.pbufs) + data[..pos]
    requires Len(last') <= mss && Filled(last'.pbufs)
    requires Holds(queue, written + data, |written| + pos, |written| + |data|, iss, mss)
    ensures Holds(q + [last'] + queue, written + data, base, |written| + |data|, iss, mss)
    ensures Clen(q + [last'] + queue) == Clen(q + [last]) + |last'.pbufs| - |last.pbufs| + Clen(queue)
  {
    hide Chained, Bytes, Clen, Data;
    HoldsSplit(q, [last], written, base, |written|, iss, mss);
    var j := base + |Bytes(q)|;
    HoldsLonger(q, written, data, base, j, iss, mss);
    HoldsLast(last, last', written, data, j, pos, iss, mss);
    HoldsJoin(q, [last'], written + data, base, j, |written| + pos, iss, mss);
    HoldsJoin(q + [last'], queue, written + data, base, |written| + pos, |written| + |data|, iss, mss);
    QueueOne(last, iss, j, mss);
    QueueOne(last', iss, j, mss);
  }

  /** Both queues hold stream[base..], balanced against the pbuf count and the spare room. */
  ghost predicate Queues(unacked: seq<Seg>, unsent: seq<Seg>, queuelen: int, oversize: nat,
                         stream: seq<byte>, base: int, iss: int, mss: int, le: bool) {
    && Holds(unacked + unsent, stream, base, |stream|, iss, mss)
    && AllSummed(unacked, le) && AllSummed(unsent, le)
    && queuelen == Clen(unacked + unsent) && SpareOk(unsent, oversize, mss)
  }

  /** Nothing fully acknowledged stays queued. */
  ghost predicate Pending(q: seq<Seg>, base: int, una: int) {
    q == [] || una < base + Len(q[0])
  }

  /** Where the bytes go that the last unsent segment takes: as many as fit it. */
  function Room(unsent: seq<Seg>, mss: nat): nat {
    if unsent == [] || Len(unsent[|unsent| - 1]) > mss then 0 else mss - Len(unsent[|unsent| - 1])
  }

  /** New segments that a write needs. */
  function NewSegments(unsent: seq<Seg>, len: nat, mss: nat): nat
    requires mss > 0
  {
    Segments(if len <= Room(unsent, mss) then 0 else len - Room(unsent, mss), mss)
  }

  /** The last unsent segment with as much of the data behind it as fits. */
  ghost predicate Lengthened(last: Seg, last': Seg, data: seq<byte>, mss: nat) {
    var pos := Taken([last], |data|, mss);
    && last'.seqno == last.seqno && last'.pbufs != [] && Filled(last'.pbufs)
    && pos <= |data| && Data(last'.pbufs) == Data(last.pbufs) + data[..pos] && Len(last') <= mss
  }

  /** How many bytes go behind the last unsent segment. */
  function Taken(unsent: seq<Seg>, len: nat, mss: nat): (pos: nat)
    ensures pos <= len
  {
    if len <= Room(unsent, mss) then len else Room(unsent, mss)
  }

  /** The unsent queue after the three phases: the last segment longer, then the new ones. */
  ghost predicate Grown(unsent: seq<Seg>, us: seq<Seg>, data: seq<byte>, mss: nat) {
    && |unsent| <= |us| && (forall i :: 0 <= i < |unsent| - 1 ==> us[i] == unsent[i])
    && (unsent != [] ==> Lengthened(unsent[|unsent| - 1], us[|unsent| - 1], data, mss))
    && (forall i :: 0 <= i < |us| && |unsent| - 1 <= i ==> Len(us[i]) <= mss)
    && (forall i :: |unsent| <= i < |us| - 1 ==> Len(us[i]) == mss)
  }

  lemma {:induction false} GrownFull(unsent: seq<Seg>, us: seq<Seg>, data: seq<byte>, mss: nat)
    requires Grown(unsent, us, data, mss)
    ensures forall i :: |unsent| <= i < |us| - 1 ==> Len(us[i]) == mss
  {
  }

  /** What the three phases make: the new segments hold the data the last segment did not take. */
  ghost predicate Phased(unsent: seq<Seg>, us: seq<Seg>, data: seq<byte>, mss: nat, written: seq<byte>, iss: int, le: bool) {
    && mss > 0 && Grown(unsent, us, data, mss) && |us| == |unsent| + NewSegments(unsent, |data|, mss)
    && Holds(us[|unsent|..], written + data, |written| + Taken(unsent, |data|, mss), |written| + |data|, iss, mss)
    && AllSummed(us[|unsent|..], le) && (unsent != [] ==> Summed(us[|unsent| - 1], le))
  }

  /** What phases 1 and 2 rely on in the last unsent segment. */
  ghost predicate CanGrow(unsent: seq<Seg>, oversize: nat, mss: int, le: bool) {
    && SpareOk(unsent, oversize, mss)
    && (unsent != [] ==> var last := unsent[|unsent| - 1]; Summed(last, le) && last.pbufs != [] && Filled(last.pbufs))
  }

  /** Pbufs that a write adds. */
  ghost function PbufsAdded(unsent: seq<Seg>, us: seq<Seg>): int
    requires |unsent| <= |us|
  {
    Clen(us[|unsent|..]) + if unsent == [] then 0 else var n := |unsent| - 1; |us[n].pbufs| - |unsent[n].pbufs|
  }

  /** All three phases, staged in local variables: only the last unsent segment is looked at. `mem` allocations succeed. */
  method Stage(unsent: seq<Seg>, data: seq<byte>, mode: WriteMode, mss: u16, lbb: u32,
               queuelen: u16, oversize: u16, adjacent: bool, mem: nat, le: bool, ghost written: seq<byte>, ghost iss: int)
    returns (ok: bool, us: seq<Seg>, ql: u16, os: u16)
    requires mss > 0 && lbb == Wrap(iss + |written|) && CanGrow(unsent, oversize, mss, le)
    requires data != [] ==> queuelen < TCP_SND_QUEUELEN
    ensures ok ==> Phased(unsent, us, data, mss, written, iss, le) && SpareOk(us, os, mss)
    ensures ok ==> ql == queuelen + PbufsAdded(unsent, us)
    ensures ok && data == [] ==> os == oversize
    ensures mem > 0 && Enough(mode.copy, mem - 1, queuelen + 1, NewSegments(unsent, |data|, mss)) ==> ok
  {
    hide Wrap, Data, Segments, Filled, Holds, Clen, Enough, Phased, PbufsAdded, NewSegments, Taken, Summed, AllSummed;
    NoSegments(mss);
    us, ql, os := unsent, queuelen, oversize;
    var count: nat, spare: nat;
    if unsent == [] {
      NoRoom(mss, |data|);
      ok, us, count, spare := BuildSegments(data, 0, mode, mss, lbb, mem, queuelen, 0, le, iss, written);
      if ok {
        PhasedFresh(us, data, mss, written, iss, le);
        ql, os := count, spare;
      } else {
        FewerEnough(mode.copy, mem, queuelen, NewSegments(unsent, |data|, mss));
      }
      return;
    }
    var n := |unsent| - 1;
    var last := unsent[n];
    var last', pos, mem';
    ok, last', pos, spare, mem' := ExtendLast(last, data, mode, mss, oversize, adjacent, mem, le);
    if !ok {
      return;
    }
    SomeRoom(unsent, mss, |data|, pos);
    var queue;
    ok, queue, count, spare :=
      BuildSegments(data, pos, mode, mss, lbb, mem', queuelen + |last'.pbufs| - |last.pbufs|, spare, le, iss, written);
    if ok {
      us := unsent[..n] + [last'] + queue;
      PhasedBehind(unsent, last', queue, data, pos, mss, written, iss, le);
      ql, os := count, spare;
    } else {
      EnoughLeft(mode.copy, mem, mem', queuelen, queuelen + |last'.pbufs| - |last.pbufs|, NewSegments(unsent, |data|, mss));
    }
  }

  lemma {:induction false} NoRoom(mss: nat, len: nat)
    requires mss > 0
    ensures NewSegments([], len, mss) == Segments(len, mss) && Taken([], len, mss) == 0
  {
  }

  lemma {:induction false} SomeRoom(unsent: seq<Seg>, mss: nat, len: nat, pos: nat)
    requires unsent != [] && Len(unsent[|unsent| - 1]) <= mss && mss > 0
    requires pos == if len <= mss - Len(unsent[|unsent| - 1]) then len else mss - Len(unsent[|unsent| - 1])
    ensures Taken(unsent, len, mss) == pos && NewSegments(unsent, len, mss) == Segments(len - pos, mss)
    ensures Taken([unsent[|unsent| - 1]], len, mss) == pos
  {
    hide Data;
  }

  lemma {:induction false} PhasedFresh(us: seq<Seg>, data: seq<byte>, mss: nat, written: seq<byte>, iss: int, le: bool)
    requires mss > 0 && Holds(us, written + data, |written| + 0, |written| + |data|, iss, mss) && AllSummed(us, le)
    requires |us| == Segments(|data|, mss) && forall i :: 0 <= i < |us| ==> Len(us[i]) <= mss
    requires forall i :: 0 <= i < |us| - 1 ==> Len(us[i]) == mss
    ensures Phased([], us, data, mss, written, iss, le) && PbufsAdded([], us) == Clen(us)
  {
    hide Holds, Data, Summed, Segments;
    assert us[0..] == us;
  }

  lemma {:induction false} PhasedBehind(unsent: seq<Seg>, last': Seg, queue: seq<Seg>, data: seq<byte>, pos: nat, mss: nat,
                                        written: seq<byte>, iss: int, le: bool)
    requires unsent != [] && mss > 0 && pos <= |data| && Taken(unsent, |data|, mss) == pos && Taken([unsent[|unsent| - 1]], |data|, mss) == pos
    requires Holds(queue, written + data, |written| + pos, |written| + |data|, iss, mss) && AllSummed(queue, le)
    requires |queue| == NewSegments(unsent, |data|, mss) && forall i :: 0 <= i < |queue| ==> Len(queue[i]) <= mss
    requires forall i :: 0 <= i < |queue| - 1 ==> Len(queue[i]) == mss
    requires Summed(last', le) && last'.seqno == unsent[|unsent| - 1].seqno && last'.pbufs != [] && Filled(last'.pbufs) && Len(last') <= mss
    requires Data(last'.pbufs) == Data(unsent[|unsent| - 1].pbufs) + data[..pos]
    ensures var us := unsent[..|unsent| - 1] + [last'] + queue;
      && Phased(unsent, us, data, mss, written, iss, le)
      && PbufsAdded(unsent, us) == Clen(queue) + |last'.pbufs| - |unsent[|unsent| - 1].pbufs|
      && us[|us| - 1] == (if queue == [] then last' else queue[|queue| - 1])
  {
    hide Holds, Data, Summed, Segments, Taken, NewSegments, Filled;
    var us := unsent[..|unsent| - 1] + [last'] + queue;
    assert us[|unsent|..] == queue && us[|unsent| - 1] == last';
  }

  lemma {:induction false} FewerEnough(copy: bool, mem: nat, queuelen: nat, n: nat)
    ensures mem > 0 && Enough(copy, mem - 1, queuelen + 1, n) ==> Enough(copy, mem, queuelen, n)
  {
  }

  lemma {:induction false} EnoughLeft(copy: bool, mem: nat, mem': nat, queuelen: nat, queuelen': nat, n: nat)
    requires mem' + 1 >= mem && queuelen' <= queuelen + 1
    ensures mem > 0 && Enough(copy, mem - 1, queuelen + 1, n) ==> Enough(copy, mem', queuelen', n)
  {
  }

  lemma {:induction false} HoldsWeaken(q: seq<Seg>, stream: seq<byte>, i: int, j: int, iss: int, mss: int, mss': int)
    requires Holds(q, stream, i, j, iss, mss) && mss <= mss'
    ensures Holds(q, stream, i, j, iss, mss')
  {
    ChainedWeaken(q, iss, i, mss, mss');
  }

  lemma {:induction false} NoBytes()
    ensures Bytes([]) == [] && Clen([]) == 0
  {
  }

  /** The three phases continue the stream that the queues hold. */
  lemma {:induction false} PhasesContinue(unacked: seq<Seg>, unsent: seq<Seg>, us: seq<Seg>, queuelen: int, oversize: nat, os: nat, data: seq<byte>,
                                          written: seq<byte>, base: int, iss: int, mss: nat, lim: int, le: bool)
    requires Queues(unacked, unsent, queuelen, oversize, written, base, iss, lim, le) && mss <= lim
    requires Phased(unsent, us, data, mss, written, iss, le) && SpareOk(us, os, mss)
    ensures Queues(unacked, us, queuelen + PbufsAdded(unsent, us), os, written + data, base, iss, lim, le)
  {
    hide Holds, Bytes, Clen, Data, Wrap, Summed, Segments, Filled, NewSegments;
    var n, queue, pos := |unsent| - 1, us[|unsent|..], Taken(unsent, |data|, mss);
    HoldsWeaken(queue, written + data, |written| + pos, |written| + |data|, iss, mss, lim);
    if unsent == [] {
      assert unacked + [] == unacked && us == queue;
      NoRoom(mss, |data|);
      HoldsLonger(unacked, written, data, base, |written|, iss, lim);
      HoldsJoin(unacked, us, written + data, base, |written|, |written + data|, iss, lim);
    } else {
      ContinuesBehind(unacked, unsent, us, queue, pos, data, written, base, iss, lim);
      AllSummedGrown(unsent, us, le);
    }
  }

  lemma {:induction false} ContinuesBehind(unacked: seq<Seg>, unsent: seq<Seg>, us: seq<Seg>, queue: seq<Seg>, pos: nat, data: seq<byte>,
                                           written: seq<byte>, base: int, iss: int, lim: int)
    requires 0 < |unsent| <= |us| && queue == us[|unsent|..] && forall i :: 0 <= i < |unsent| - 1 ==> us[i] == unsent[i]
    requires Holds(unacked + unsent, written, base, |written|, iss, lim) && pos <= |data|
    requires Holds(queue, written + data, |written| + pos, |written| + |data|, iss, lim)
    requires var last, last' := unsent[|unsent| - 1], us[|unsent| - 1];
      && last'.seqno == last.seqno && last'.pbufs != [] && Filled(last'.pbufs) && Len(last') <= lim
      && Data(last'.pbufs) == Data(last.pbufs) + data[..pos]
    ensures Holds(unacked + us, written + data, base, |written| + |data|, iss, lim)
    ensures Clen(unacked + us) == Clen(unacked + unsent) + PbufsAdded(unsent, us)
  {
    hide Holds, Bytes, Clen, Data, Wrap, Filled;
    var n := |unsent| - 1;
    var front := unacked + unsent[..n];
    assert unacked + unsent == front + [unsent[n]];
    CommitWrite(front, unsent[n], us[n], queue, written, data, pos, base, iss, lim);
    assert us == unsent[..n] + [us[n]] + queue;
    assert unacked + us == front + [us[n]] + queue;
  }

  lemma {:induction false} AllSummedGrown(unsent: seq<Seg>, us: seq<Seg>, le: bool)
    requires AllSummed(unsent, le) && 0 < |unsent| <= |us| && (forall i :: 0 <= i < |unsent| - 1 ==> us[i] == unsent[i])
    requires AllSummed(us[|unsent|..], le) && Summed(us[|unsent| - 1], le)
    ensures AllSummed(us, le)
  {
    hide Summed;
    forall i | 0 <= i < |us| ensures Summed(us[i], le) {
      if i >= |unsent| { assert us[i] == us[|unsent|..][i - |unsent|]; }
    }
  }

  /** What Queues says of the last unsent segment. */
  lemma {:induction false} QueuesCanGrow(unacked: seq<Seg>, unsent: seq<Seg>, queuelen: int, oversize: nat,
                                         written: seq<byte>, base: int, iss: int, mss: nat, lim: int, le: bool)
    requires Queues(unacked, unsent, queuelen, oversize, written, base, iss, lim, le)
    requires unsent != [] ==> Len(unsent[|unsent| - 1]) + oversize <= mss
    ensures CanGrow(unsent, oversize, mss, le)
  {
    hide Chained, Bytes, Clen, Data, Wrap, ChksumOf, Filled;
    if unsent != [] {
      var n := |unsent| - 1;
      assert unacked + unsent == (unacked + unsent[..n]) + [unsent[n]];
      LastFits(unacked + unsent[..n], unsent[n], written, base, iss, lim);
    }
  }

  lemma {:induction false} SpareNone(unacked: seq<Seg>, queuelen: int, oversize: nat,
                                     written: seq<byte>, base: int, iss: int, lim: int, le: bool)
    requires Queues(unacked, [], queuelen, oversize, written, base, iss, lim, le)
    ensures oversize == 0
  {
  }

  lemma {:induction false} LastFits(front: seq<Seg>, last: Seg, written: seq<byte>, base: int, iss: int, mss: int)
    requires Holds(front + [last], written, base, |written|, iss, mss)
    ensures SegAt(last, iss, base + |Bytes(front)|, mss)
  {
    hide Chained, Bytes, Clen, Data, Wrap;
    HoldsSplit(front, [last], written, base, |written|, iss, mss);
    QueueOne(last, iss, base + |Bytes(front)|, mss);
  }

  // ------------------------------------------------------------ acknowledgements

  /** What is left of a queue that starts at `pos` after everything up to `ack` is acknowledged. */
  function Survivors(q: seq<Seg>, pos: int, ack: int): seq<Seg> {
    if q == [] || pos + Len(q[0]) > ack then q else Survivors(q[1..], pos + Len(q[0]), ack)
  }

  lemma {:induction false} SurvivorsHold(q: seq<Seg>, stream: seq<byte>, i: int, k: int, ack: int, iss: int, mss: int)
    requires Holds(q, stream, i, k, iss, mss)
    ensures var r := Survivors(q, i, ack);
      var j := k - |Bytes(r)|;
      && |Bytes(q)| == k - i && i <= j <= k && (j == i || j <= ack)
      && Holds(r, stream, j, k, iss, mss) && Clen(r) <= Clen(q)
      && (r != [] ==> ack < j + Len(r[0]) <= k) && (r == [] ==> j == k)
      && |r| <= |q| && r == q[|q| - |r|..]
    decreases |q|
  {
    hide Chained, Data;
    if q == [] {
    } else if i + Len(q[0]) > ack {
      assert q == [q[0]] + q[1..];
      HoldsSplit([q[0]], q[1..], stream, i, k, iss, mss);
      QueueOne(q[0], iss, i, mss);
    } else {
      assert q == [q[0]] + q[1..];
      HoldsSplit([q[0]], q[1..], stream, i, k, iss, mss);
      QueueOne(q[0], iss, i, mss);
      SurvivorsHold(q[1..], stream, i + Len(q[0]), k, ack, iss, mss);
    }
  }

  /** Freeing both queues one after the other is freeing their concatenation. */
  lemma {:induction false} SurvivorsAppend(a: seq<Seg>, b: seq<Seg>, pos: int, ack: int, iss: int, mss: int)
    requires Chained(a + b, iss, pos, mss)
    ensures Survivors(a + b, pos, ack) == Survivors(a, pos, ack) + Survivors(b, pos + |Bytes(a)|, ack)
    decreases |a|
  {
    if a == [] {
      assert a + b == b;
    } else {
      assert (a + b)[1..] == a[1..] + b && (a + b)[0] == a[0];
      if pos + Len(a[0]) <= ack {
        SurvivorsAppend(a[1..], b, pos + Len(a[0]), ack, iss, mss);
      } else if b != [] {
        ChainedAppend(a, b, iss, pos, mss);
        assert Len(b[0]) > 0;
      }
    }
  }

  /** tcp_free_acked_segments() */
  method FreeAcked(list: seq<Seg>, ackno: u32, queuelen: u16,
                   ghost stream: seq<byte>, ghost i: int, ghost k: int, ghost ack: int, ghost iss: int, ghost mss: int)
    returns (rest: seq<Seg>, queuelen': u16, recvAcked: nat)
    requires Holds(list, stream, i, k, iss, mss) && ackno == Wrap(iss + ack) && Clen(list) <= queuelen
    requires -HALF32 < i - ack && k - ack < HALF32
    ensures rest == Survivors(list, i, ack)
    ensures queuelen' == queuelen - (Clen(list) - Clen(rest)) && recvAcked == |Bytes(list)| - |Bytes(rest)|
  {
    rest, queuelen', recvAcked := list, queuelen, 0;
    ghost var pos := i;
    while rest != [] && SeqLeq(Wrap(rest[0].seqno + Len(rest[0])), ackno)
      invariant i <= pos && Holds(rest, stream, pos, k, iss, mss) && Survivors(rest, pos, ack) == Survivors(list, i, ack)
      invariant Clen(rest) <= queuelen' && queuelen' == queuelen - (Clen(list) - Clen(rest))
      invariant recvAcked == |Bytes(list)| - |Bytes(rest)|
      decreases |rest|
    {
      FirstEnds(rest, stream, pos, k, ack, iss, mss);
      assert rest == [rest[0]] + rest[1..];
      HoldsSplit([rest[0]], rest[1..], stream, pos, k, iss, mss);
      queuelen' := queuelen' - |rest[0].pbufs|;
      recvAcked := recvAcked + Len(rest[0]);
      pos := pos + Len(rest[0]);
      rest := rest[1..];
    }
    if rest != [] { FirstEnds(rest, stream, pos, k, ack, iss, mss); }
  }

  lemma {:induction false} FirstEnds(q: seq<Seg>, stream: seq<byte>, i: int, k: int, ack: int, iss: int, mss: int)
    requires q != [] && Holds(q, stream, i, k, iss, mss) && -HALF32 < i - ack && k - ack < HALF32
    ensures SeqLeq(Wrap(q[0].seqno + Len(q[0])), Wrap(iss + ack)) <==> i + Len(q[0]) <= ack
    ensures Bytes([q[0]]) == Data(q[0].pbufs) && Clen([q[0]]) == |q[0].pbufs|
  {
    QueueOne(q[0], iss, i, mss);
    assert |Bytes(q)| == k - i && Len(q[0]) <= |Bytes(q)|;
    WrapAdd(iss + i, Len(q[0]));
    DiffExact(iss + i + Len(q[0]), iss + ack);
  }

  lemma {:induction false} SuffixSpare(unsent: seq<Seg>, us: seq<Seg>, oversize: nat, mss: int, le: bool)
    requires AllSummed(unsent, le) && SpareOk(unsent, oversize, mss) && |us| <= |unsent| && us == unsent[|unsent| - |us|..]
    ensures AllSummed(us, le) && SpareOk(us, if us == [] then 0 else oversize, mss)
  {
  }

  lemma {:induction false} SuffixSummed(q: seq<Seg>, r: seq<Seg>, le: bool)
    requires AllSummed(q, le) && |r| <= |q| && r == q[|q| - |r|..]
    ensures AllSummed(r, le)
  {
  }

  /** Where both queues stand after an acknowledgement. */
  lemma {:induction false} AckKeepsQueues(unacked: seq<Seg>, unsent: seq<Seg>, queuelen: int, oversize: nat,
                       written: seq<byte>, base: int, ack: int, iss: int, mss: int, le: bool)
    requires Queues(unacked, unsent, queuelen, oversize, written, base, iss, mss, le) && base <= ack
    ensures var mid := base + |Bytes(unacked)|;
      var ua, us := Survivors(unacked, base, ack), Survivors(unsent, mid, ack);
      var base' := |written| - |Bytes(ua + us)|;
      && base <= base' <= ack && ua + us == Survivors(unacked + unsent, base, ack)
      && Queues(ua, us, Clen(ua + us), if us == [] then 0 else oversize, written, base', iss, mss, le)
      && (|Bytes(ua)| == 0 || base' + |Bytes(ua)| == mid) && Pending(ua + us, base', ack)
    ensures var mid, n := base + |Bytes(unacked)|, |written|;
      && Holds(unacked, written, base, mid, iss, mss) && Holds(unsent, written, mid, n, iss, mss) && mid <= n
      && |Bytes(unacked)| + |Bytes(unsent)| == n - base && Clen(unacked) + Clen(unsent) == queuelen
  {
    hide Chained, Clen, Bytes, Data, Survivors, AllSummed, SpareOk;
    var mid, n := base + |Bytes(unacked)|, |written|;
    HoldsSplit(unacked, unsent, written, base, n, iss, mss);
    SurvivorsAppend(unacked, unsent, base, ack, iss, mss);
    SurvivorsHold(unacked + unsent, written, base, n, ack, iss, mss);
    SurvivorsHold(unacked, written, base, mid, ack, iss, mss);
    SurvivorsHold(unsent, written, mid, n, ack, iss, mss);
    var ua, us := Survivors(unacked, base, ack), Survivors(unsent, mid, ack);
    SuffixSpare(unsent, us, oversize, mss, le);
    SuffixSummed(unacked, ua, le);
    QueueAppend(ua, us);
    NoBytes();
  }

  /** The queues with the counters: everything unacknowledged is queued, send buffer and queue length account
      for it, lastack and snd_nxt stand for positions in the stream. */
  ghost predicate Balanced(unacked: seq<Seg>, unsent: seq<Seg>, queuelen: u16, oversize: u16, sndBuf: u16, lastack: u32, sndNxt: u32,
                           written: seq<byte>, base: int, una: int, nxt: int, iss: int, mss: int, le: bool) {
    && Queues(unacked, unsent, queuelen, oversize, written, base, iss, mss, le)
    && sndBuf + (|written| - base) == TCP_SND_BUF
    && lastack == Wrap(iss + una) && sndNxt == Wrap(iss + nxt)
    && base <= una <= nxt <= |written| && base + |Bytes(unacked)| <= nxt
  }

  /** Both calls of tcp_free_acked_segments() for a new acknowledgement. */
  method AckQueues(unacked: seq<Seg>, unsent: seq<Seg>, ackno: u32, queuelen: u16, oversize: u16, sndBuf: u16, lastack: u32, sndNxt: u32,
                   le: bool, ghost written: seq<byte>, ghost base: int, ghost una: int, ghost ack: int, ghost nxt: int,
                   ghost iss: int, ghost mss: int)
    returns (ua: seq<Seg>, us: seq<Seg>, ql: u16, os: u16, acked: nat)
    requires Balanced(unacked, unsent, queuelen, oversize, sndBuf, lastack, sndNxt, written, base, una, nxt, iss, mss, le)
    requires ackno == Wrap(iss + ack) && una <= ack <= nxt
    ensures sndBuf + acked <= TCP_SND_BUF
    ensures Balanced(ua, us, ql, os, sndBuf + acked, ackno, sndNxt, written, base + acked, ack, nxt, iss, mss, le)
    ensures ua + us == Survivors(unacked + unsent, base, ack)
    ensures ua == Survivors(unacked, base, ack) && us == Survivors(unsent, base + |Bytes(unacked)|, ack)
    ensures Pending(ua + us, base + acked, ack) && os == (if us == [] then 0 else oversize)
  {
    hide Queues, Holds, Pending, Clen, Bytes, Len, Wrap, Survivors;
    AckKeepsQueues(unacked, unsent, queuelen, oversize, written, base, ack, iss, mss, le);
    ghost var mid, n := base + |Bytes(unacked)|, |written|;
    var a1, a2;
    ua, ql, a1 := FreeAcked(unacked, ackno, queuelen, written, base, mid, ack, iss, mss);
    us, ql, a2 := FreeAcked(unsent, ackno, ql, written, mid, n, ack, iss, mss);
    QueueAppend(ua, us);
    os := if us == [] then 0 else oversize;
    acked := a1 + a2;
  }

  // -------------------------------------------------------------------- output

  /** Insertion that keeps a queue sorted by sequence number (tcp_output() and tcp_rexmit()). */
  method InsertSorted(list: seq<Seg>, seg: Seg) returns (out: seq<Seg>, i: nat)
    ensures i <= |list| && out == list[..i] + [seg] + list[i..]
    ensures forall k :: 0 <= k < i ==> SeqLt(list[k].seqno, seg.seqno)
    ensures i < |list| ==> !SeqLt(list[i].seqno, seg.seqno)
  {
    var k := 0;
    while k < |list| && SeqLt(list[k].seqno, seg.seqno)
      invariant k <= |list| && forall j :: 0 <= j < k ==> SeqLt(list[j].seqno, seg.seqno)
    {
      k := k + 1;
    }
    out, i := list[..k] + [seg] + list[k..], k;
  }

  lemma {:induction false} Inserted(list: seq<Seg>, seg: Seg, i: nat)
    requires i <= |list|
    ensures var out := list[..i] + [seg] + list[i..];
      multiset(out) == multiset(list) + multiset{seg} && (i == 0 ==> out == [seg] + list)
  {
    assert list == list[..i] + list[i..];
  }

  /** A segment just sent goes to the tail of unacked, or to its place before the tail after
      a fast retransmit. */
  method InsertUnacked(unacked: seq<Seg>, seg: Seg) returns (out: seq<Seg>)
    ensures unacked == [] || !SeqLt(seg.seqno, unacked[|unacked| - 1].seqno) ==> out == unacked + [seg]
    ensures multiset(out) == multiset(unacked) + multiset{seg}
    // lower than all of them: in front
    ensures unacked != [] && SeqLt(seg.seqno, unacked[|unacked| - 1].seqno) && !SeqLt(unacked[0].seqno, seg.seqno) ==> out == [seg] + unacked
  {
    hide SeqLt;
    if unacked == [] {
      out := [seg];
    } else if SeqLt(seg.seqno, unacked[|unacked| - 1].seqno) {
      var i;
      out, i := InsertSorted(unacked, seg);
      Inserted(unacked, seg, i);
    } else {
      out := unacked + [seg];
    }
  }

  /** In a chained queue the head of the second part follows the tail of the first. */
  lemma {:induction false} HeadFollowsTail(a: seq<Seg>, b: seq<Seg>, stream: seq<byte>, i: int, k: int, iss: int, mss: int)
    requires b != [] && Holds(a + b, stream, i, k, iss, mss) && k - i <= TCP_SND_BUF
    ensures var mid := i + |Bytes(a)|;
      && b[0].seqno == Wrap(iss + mid) && 0 < Len(b[0]) <= mss && mid + Len(b[0]) <= k
      && |Bytes(a + [b[0]])| == |Bytes(a)| + Len(b[0])
      && (a != [] ==> !SeqLt(b[0].seqno, a[|a| - 1].seqno))
  {
    hide Chained, Bytes, Data, Clen;
    var mid := i + |Bytes(a)|;
    HoldsSplit(a, b, stream, i, k, iss, mss);
    assert b == [b[0]] + b[1..];
    HoldsSplit([b[0]], b[1..], stream, mid, k, iss, mss);
    QueueOne(b[0], iss, mid, mss);
    QueueAppend(a, [b[0]]);
    if a != [] {
      var n := |a| - 1;
      assert a == a[..n] + [a[n]];
      HoldsSplit(a[..n], [a[n]], stream, i, mid, iss, mss);
      QueueOne(a[n], iss, i + |Bytes(a[..n])|, mss);
      DiffExact(iss + mid, iss + i + |Bytes(a[..n])|);
    }
  }

  /** Moving the head of unsent to unacked leaves the concatenation as it was. */
  lemma {:induction false} MoveKeepsQueues(unacked: seq<Seg>, unsent: seq<Seg>, queuelen: int, oversize: nat,
                        written: seq<byte>, base: int, iss: int, mss: int, le: bool)
    requires Queues(unacked, unsent, queuelen, oversize, written, base, iss, mss, le) && unsent != []
    ensures unacked + [unsent[0]] + unsent[1..] == unacked + unsent
    ensures Queues(unacked + [unsent[0]], unsent[1..], queuelen, if |unsent| == 1 then 0 else oversize, written, base, iss, mss, le)
  {
    hide Holds, Clen, Summed;
    assert unacked + [unsent[0]] + unsent[1..] == unacked + unsent;
    SuffixSpare(unsent, unsent[1..], oversize, mss, le);
  }

  /** snd_nxt once a segment that ends at `end` has gone out */
  function Later(sndNxt: u32, end: u32): u32 {
    if SeqLt(sndNxt, end) then end else sndNxt
  }

  /** One segment goes out: the queues, snd_nxt and the spare room afterwards. */
  method SendHead(unacked: seq<Seg>, unsent: seq<Seg>, sndNxt: u32, queuelen: u16, oversize: u16, le: bool,
                  ghost written: seq<byte>, ghost base: int, ghost nxt: int, ghost iss: int, ghost mss: int)
    returns (ua: seq<Seg>, us: seq<Seg>, sn: u32, os: u16, ghost nxt': int)
    requires Queues(unacked, unsent, queuelen, oversize, written, base, iss, mss, le) && unsent != []
    requires |written| - base <= TCP_SND_BUF && sndNxt == Wrap(iss + nxt) && base <= nxt <= |written|
    ensures Queues(ua, us, queuelen, os, written, base, iss, mss, le) && ua + us == unacked + unsent
    ensures ua == unacked + [unsent[0]] && us == unsent[1..]
    ensures sn == Wrap(iss + nxt') && nxt' <= |written| && nxt' == (if nxt < base + |Bytes(ua)| then base + |Bytes(ua)| else nxt)
    ensures os == if us == [] then 0 else oversize
  {
    MoveKeepsQueues(unacked, unsent, queuelen, oversize, written, base, iss, mss, le);
    assert Holds(unacked + unsent, written, base, |written|, iss, mss);
    hide Queues, Holds, Bytes, Data, Len, Wrap, SeqLt;
    HeadFollowsTail(unacked, unsent, written, base, |written|, iss, mss);
    var seg := unsent[0];
    ghost var mid := base + |Bytes(unacked)|;
    CompareNext(iss, mid, Len(seg), nxt);
    sn := Later(sndNxt, Wrap(seg.seqno + Len(seg)));
    nxt' := if nxt < mid + Len(seg) then mid + Len(seg) else nxt;
    us := unsent[1..];
    ua := InsertUnacked(unacked, seg);
    os := if us == [] then 0 else oversize;
  }

  /** The segments of `ua` from number `from` on end inside a window of `wnd` bytes. */
  ghost predicate SentInside(ua: seq<Seg>, from: nat, base: int, una: int, wnd: int) {
    forall i :: from < i <= |ua| ==> una <= base + |Bytes(ua[..i])| <= una + wnd
  }

  /** Of the segments number `from` to `to` each is the first of all, has one behind it or is of full size. */
  ghost predicate SentAtOnce(q: seq<Seg>, from: nat, to: nat, mss: int)
    requires to <= |q|
  {
    forall i :: from <= i < to ==> i == 0 || i < |q| - 1 || Len(q[i]) >= mss
  }

  ghost function Furthest(nxt: int, base: int, ua: seq<Seg>): int {
    if nxt < base + |Bytes(ua)| then base + |Bytes(ua)| else nxt
  }

  function SpareLeft(us: seq<Seg>, oversize: u16): u16 {
    if us == [] then 0 else oversize
  }

  lemma {:induction false} BytesGrow(ua: seq<Seg>, seg: Seg)
    ensures |Bytes(ua)| <= |Bytes(ua + [seg])|
  {
    QueueAppend(ua, [seg]);
  }

  /** Every segment that has gone out was inside both windows and not to be held back. */
  ghost predicate SentRight(ua: seq<Seg>, us: seq<Seg>, from: nat, base: int, una: int, wnd: int, cwnd: int, prompt: bool, mss: int) {
    && SentInside(ua, from, base, una, wnd) && SentInside(ua, from, base, una, cwnd)
    && (prompt || SentAtOnce(ua + us, from, |ua|, mss))
  }

  lemma {:induction false} SentNone(ua: seq<Seg>, us: seq<Seg>, base: int, una: int, wnd: int, cwnd: int, prompt: bool, mss: int)
    ensures SentRight(ua, us, |ua|, base, una, wnd, cwnd, prompt, mss)
  {
  }

  lemma {:induction false} SentMore(ua: seq<Seg>, us: seq<Seg>, from: nat, base: int, una: int, wnd: int, cwnd: int, prompt: bool, mss: int)
    requires us != [] && SentRight(ua, us, from, base, una, wnd, cwnd, prompt, mss)
    requires var end := base + |Bytes(ua)| + Len(us[0]); una <= end <= una + wnd && end <= una + cwnd
    requires prompt || ua == [] || |us| > 1 || Len(us[0]) >= mss
    ensures SentRight(ua + [us[0]], us[1..], from, base, una, wnd, cwnd, prompt, mss)
  {
    hide Bytes, Data;
    SentInsideMore(ua, us[0], from, base, una, wnd);
    SentInsideMore(ua, us[0], from, base, una, cwnd);
    assert ua + us == ua + [us[0]] + us[1..] && (ua + us)[|ua|] == us[0];
  }

  lemma {:induction false} SentInsideMore(ua: seq<Seg>, seg: Seg, from: nat, base: int, una: int, wnd: int)
    requires SentInside(ua, from, base, una, wnd) && una <= base + |Bytes(ua)| + Len(seg) <= una + wnd
    ensures SentInside(ua + [seg], from, base, una, wnd)
  {
    hide Bytes, Data;
    var q := ua + [seg];
    QueueAppend(ua, [seg]);
    QueueOne(seg, 0, 0, 0);
    forall i | from < i <= |q| ensures una <= base + |Bytes(q[..i])| <= una + wnd {
      if i <= |ua| { assert q[..i] == ua[..i]; } else { assert q[..i] == q; }
    }
  }

  lemma {:induction false} CompareNext(iss: int, mid: int, len: int, nxt: int)
    requires -TCP_SND_BUF <= nxt - (mid + len) <= TCP_SND_BUF
    ensures Wrap(Wrap(iss + mid) + len) == Wrap(iss + (mid + len))
    ensures SeqLt(Wrap(iss + nxt), Wrap(iss + (mid + len))) <==> nxt < mid + len
  {
    WrapAdd(iss + mid, len);
    DiffExact(iss + nxt, iss + mid + len);
  }

  // ------------------------------------------------------------- retransmission

  /** Strictly increasing sequence numbers. */
  ghost predicate Ascending(q: seq<Seg>) {
    forall i, j :: 0 <= i < j < |q| ==> SeqGt(q[j].seqno, q[i].seqno)
  }

  lemma {:induction false} ElementAt(q: seq<Seg>, stream: seq<byte>, i: int, k: int, iss: int, mss: int, n: nat)
    requires Holds(q, stream, i, k, iss, mss) && n < |q|
    ensures var pos := i + |Bytes(q[..n])|;
      q[n].seqno == Wrap(iss + pos) && 0 < Len(q[n]) && i <= pos && pos + Len(q[n]) <= k
      && (forall m :: n < m < |q| ==> pos + Len(q[n]) <= i + |Bytes(q[..m])|)
  {
    hide Chained, Bytes, Data, Clen;
    assert q == q[..n] + q[n..];
    HoldsSplit(q[..n], q[n..], stream, i, k, iss, mss);
    var pos := i + |Bytes(q[..n])|;
    assert q[n..] == [q[n]] + q[n + 1..];
    HoldsSplit([q[n]], q[n + 1..], stream, pos, k, iss, mss);
    QueueOne(q[n], iss, pos, mss);
    forall m | n < m < |q| ensures pos + Len(q[n]) <= i + |Bytes(q[..m])| {
      assert q[..m] == q[..n] + ([q[n]] + q[n + 1..m]);
      QueueAppend(q[..n], [q[n]] + q[n + 1..m]);
      QueueAppend([q[n]], q[n + 1..m]);
    }
  }

  lemma {:induction false} HeldAscending(q: seq<Seg>, stream: seq<byte>, i: int, k: int, iss: int, mss: int)
    requires Holds(q, stream, i, k, iss, mss) && k - i <= TCP_SND_BUF
    ensures Ascending(q)
  {
    hide Holds, Bytes, Data, SeqGt, Len, Wrap;
    forall m, n | 0 <= m < n < |q| ensures SeqGt(q[n].seqno, q[m].seqno) {
      ElementAt(q, stream, i, k, iss, mss, m);
      ElementAt(q, stream, i, k, iss, mss, n);
      CompareNear(iss, i + |Bytes(q[..m])|, i + |Bytes(q[..n])|);
    }
  }

  lemma {:induction false} CompareNear(iss: int, x: int, y: int)
    requires -TCP_SND_BUF <= x - y <= TCP_SND_BUF
    ensures SeqGt(Wrap(iss + y), Wrap(iss + x)) <==> x < y
  {
    DiffExact(iss + y, iss + x);
  }

  /** tcp_rexmit(): the first unacked segment goes back to unsent, in sequence order. */
  method Rexmit(unacked: seq<Seg>, unsent: seq<Seg>, busy: bool)
    returns (err: Err, ua: seq<Seg>, us: seq<Seg>, i: nat)
    ensures err == ErrOk <==> unacked != [] && !busy
    ensures err != ErrOk ==> err == ErrVal && ua == unacked && us == unsent
    ensures err == ErrOk ==> i <= |unsent| && ua == unacked[1..] && us == unsent[..i] + [unacked[0]] + unsent[i..]
    ensures err == ErrOk && Ascending(unacked + unsent) ==> i == 0 && us == [unacked[0]] + unsent
  {
    hide SeqLt;
    if unacked == [] || busy {
      return ErrVal, unacked, unsent, 0;
    }
    var seg := unacked[0];
    ua := unacked[1..];
    us, i := InsertSorted(unsent, seg);
    err := ErrOk;
    if Ascending(unacked + unsent) && unsent != [] {
      assert (unacked + unsent)[0] == seg && (unacked + unsent)[|unacked|] == unsent[0];
      SeqGtNotLt(unsent[0].seqno, seg.seqno);
      assert i == 0;
    }
  }

  lemma {:induction false} SeqGtNotLt(a: u32, b: u32)
    requires SeqGt(a, b)
    ensures !SeqLt(a, b)
  {
  }

  lemma {:induction false} SeqGtIsLt(a: u32, b: u32)
    requires SeqGt(a, b)
    ensures SeqLt(b, a)
  {
  }

  lemma {:induction false} SeqGtAsymmetric(a: u32, b: u32)
    requires SeqGt(a, b)
    ensures !SeqGt(b, a)
  {
  }

  /** After a fast retransmit both queues are still in order and hold the same segments, and
      sending the segment again puts it back where it was. */
  lemma {:induction false} FastRetransmitKeepsOrder(unacked: seq<Seg>, unsent: seq<Seg>)
    requires unacked != [] && Ascending(unacked + unsent)
    ensures var ua, us := unacked[1..], [unacked[0]] + unsent;
      && Ascending(ua) && Ascending(us)
      && (forall k :: 0 <= k < |ua| ==> SeqGt(ua[k].seqno, us[0].seqno))
      && [us[0]] + ua + us[1..] == unacked + unsent
  {
    var q, ua, us := unacked + unsent, unacked[1..], [unacked[0]] + unsent;
    forall i, j | 0 <= i < j < |ua| ensures SeqGt(ua[j].seqno, ua[i].seqno) {
      assert ua[i] == q[i + 1] && ua[j] == q[j + 1];
    }
    forall i, j | 0 <= i < j < |us| ensures SeqGt(us[j].seqno, us[i].seqno) {
      assert us[j] == q[|ua| + j] && us[i] == if i == 0 then q[0] else q[|ua| + i];
    }
    forall k | 0 <= k < |ua| ensures SeqGt(ua[k].seqno, us[0].seqno) {
      assert us[0] == q[0] && ua[k] == q[k + 1];
    }
  }

  /** tcp_rexmit_rto_prepare() puts unacked in front of unsent. With a fast retransmission just queued that
      is in order exactly when the segment was the only one unacknowledged. */
  lemma {:induction false} RtoKeepsOrderIff(unacked: seq<Seg>, unsent: seq<Seg>)
    requires unacked != [] && Ascending(unacked + unsent)
    ensures Ascending(unacked[1..] + ([unacked[0]] + unsent)) <==> |unacked| == 1
  {
    var q, r := unacked + unsent, unacked[1..] + ([unacked[0]] + unsent);
    if |unacked| == 1 {
      assert r == q;
    } else {
      assert r[0] == q[1] && r[|unacked| - 1] == q[0];
      SeqGtAsymmetric(q[1].seqno, q[0].seqno);
    }
  }

  /** With the first unsent segment waiting to be sent again, what a write appends is put where the stream
      continues if and only if this holds. */
  predicate Continues(unacked: seq<Seg>, unsent: seq<Seg>, len: nat, mss: nat) {
    |unsent| != 1 || unacked == [] || Taken(unsent, len, mss) == 0
  }

  /** The segment that waits is the only unsent one: the three phases lengthen it. All segments in their order hold
      the stream if and only if they took nothing behind it, or nothing else is unacknowledged. */
  lemma {:induction false} BehindRetransmissionIff(seg: Seg, unacked: seq<Seg>, us: seq<Seg>, data: seq<byte>, written: seq<byte>, base: int,
                                                   iss: int, mss: nat, lim: int, le: bool)
    requires Holds([seg] + unacked, written, base, |written|, iss, lim) && mss <= lim && |written| + |data| - base <= TCP_SND_BUF
    requires Phased([seg], us, data, mss, written, iss, le)
    ensures Holds([us[0]] + unacked + us[1..], written + data, base, |written| + |data|, iss, lim) <==>
            Taken([seg], |data|, mss) == 0 || unacked == []
  {
    hide Chained, Bytes, Data, Clen, Wrap, Summed, Filled, NewSegments;
    var pos, seg', queue := Taken([seg], |data|, mss), us[0], us[1..];
    HoldsWeaken(queue, written + data, |written| + pos, |written| + |data|, iss, mss, lim);
    if unacked == [] {
      assert [seg] + unacked == [] + [seg] && [seg'] + unacked + queue == [] + [seg'] + queue;
      CommitWrite([], seg, seg', queue, written, data, pos, base, iss, lim);
    } else {
      HoldsSplit([seg], unacked, written, base, |written|, iss, lim);
      QueueOne(seg, iss, base, lim);
      if pos == 0 {
        SameBytesHold(seg, seg', unacked, queue, data, written, base, iss, lim);
      } else {
        Displaced(seg, seg', unacked, queue, pos, data, written, base, iss, lim);
      }
    }
  }

  lemma {:induction false} SameBytesHold(seg: Seg, seg': Seg, unacked: seq<Seg>, queue: seq<Seg>, data: seq<byte>, written: seq<byte>, base: int,
                                         iss: int, lim: int)
    requires Holds([seg], written, base, base + Len(seg), iss, lim) && Holds(unacked, written, base + Len(seg), |written|, iss, lim)
    requires Holds(queue, written + data, |written|, |written| + |data|, iss, lim)
    requires seg'.seqno == seg.seqno && seg'.pbufs != [] && Filled(seg'.pbufs) && Data(seg'.pbufs) == Data(seg.pbufs)
    ensures Holds([seg'] + unacked + queue, written + data, base, |written| + |data|, iss, lim)
  {
    hide Chained, Bytes, Data, Clen, Wrap, Filled;
    var j := base + Len(seg);
    HoldsOne(seg, written, base, j, iss, lim);
    HoldsOne(seg', written, base, j, iss, lim);
    HoldsJoin([seg'], unacked, written, base, j, |written|, iss, lim);
    HoldsLonger([seg'] + unacked, written, data, base, |written|, iss, lim);
    HoldsJoin([seg'] + unacked, queue, written + data, base, |written|, |written| + |data|, iss, lim);
  }

  /** Two segments at different places of the stream do not have the same sequence number. */
  lemma {:induction false} Displaced(seg: Seg, seg': Seg, unacked: seq<Seg>, queue: seq<Seg>, pos: nat, data: seq<byte>, written: seq<byte>, base: int,
                                     iss: int, lim: int)
    requires Holds(unacked, written, base + Len(seg), |written|, iss, lim) && unacked != [] && 0 < pos <= |data| <= TCP_SND_BUF
    requires Data(seg'.pbufs) == Data(seg.pbufs) + data[..pos]
    ensures !Holds([seg'] + unacked + queue, written + data, base, |written| + |data|, iss, lim)
  {
    hide Holds, Bytes, Data, Clen, Wrap, Diff;
    var q, at := [seg'] + unacked + queue, base + Len(seg);
    assert q[1] == unacked[0] && q[..1] == [seg'] && unacked[..0] == [];
    QueueOne(seg', iss, base, lim);
    NoBytes();
    ElementAt(unacked, written, at, |written|, iss, lim, 0);
    DiffExact(iss + (at + pos), iss + at);
    DiffExact(iss + at, iss + at);
    if Holds(q, written + data, base, |written| + |data|, iss, lim) {
      ElementAt(q, written + data, base, |written| + |data|, iss, lim, 1);
    }
  }

  /** The queues after a write behind a segment that waits. */
  ghost predicate StagedBehind(unacked: seq<Seg>, unsent: seq<Seg>, us: seq<Seg>, ql: int, os: nat,
                               stream: seq<byte>, base: int, iss: int, lim: int, le: bool, inPlace: bool) {
    && unsent != [] && us != [] && (Holds([us[0]] + unacked + us[1..], stream, base, |stream|, iss, lim) <==> inPlace)
    && (unacked == [] ==> Queues([], us, ql, os, stream, base, iss, lim, le))
    && (inPlace && unacked != [] ==>
          && Queues([us[0]] + unacked, us[1..], ql, os, stream, base, iss, lim, le)
          && |Bytes([us[0]] + unacked)| == |Bytes([unsent[0]] + unacked)|)
  }

  lemma {:induction false} WaitingStaged(unacked: seq<Seg>, unsent: seq<Seg>, us: seq<Seg>, queuelen: int, oversize: nat, ql: int, os: nat,
                                         data: seq<byte>, written: seq<byte>, base: int, iss: int, mss: nat, lim: int, le: bool)
    requires unsent != [] && Queues([unsent[0]] + unacked, unsent[1..], queuelen, oversize, written, base, iss, lim, le)
    requires mss <= lim && |written| + |data| - base <= TCP_SND_BUF
    requires Phased(unsent, us, data, mss, written, iss, le) && SpareOk(us, os, mss) && ql == queuelen + PbufsAdded(unsent, us)
    requires data == [] ==> os == oversize
    ensures StagedBehind(unacked, unsent, us, ql, os, written + data, base, iss, lim, le, Continues(unacked, unsent, |data|, mss))
  {
    hide Queues, Phased, Holds, Bytes, SpareOk, PbufsAdded;
    if |unsent| > 1 {
      StagedBehindMore(unacked, unsent, us, queuelen, oversize, ql, os, data, written, base, iss, mss, lim, le);
    } else {
      StagedBehindOne(unacked, unsent, us, queuelen, oversize, ql, os, data, written, base, iss, mss, lim, le);
    }
  }

  // ------------------------------------------------------------------- splitting

  /** pbuf_realloc() of a chain to its first `n` payload bytes. */
  function TrimPbufs(ps: seq<Pbuf>, n: nat): seq<Pbuf> {
    if ps == [] then []
    else if n <= |ps[0].data| then [ps[0].(data := ps[0].data[..n])]
    else [ps[0]] + TrimPbufs(ps[1..], n - |ps[0].data|)
  }

  lemma {:induction false} TrimPbufsData(ps: seq<Pbuf>, n: nat)
    requires n <= |Data(ps)| && ps != []
    ensures Data(TrimPbufs(ps, n)) == Data(ps)[..n] && 0 < |TrimPbufs(ps, n)| <= |ps|
  {
    if n <= |ps[0].data| {
      assert |[ps[0].(data := ps[0].data[..n])][1..]| == 0;
      assert Data(ps)[..n] == ps[0].data[..n];
    } else {
      assert Data(ps) == ps[0].data + Data(ps[1..]);
      var t := TrimPbufs(ps[1..], n - |ps[0].data|);
      TrimPbufsData(ps[1..], n - |ps[0].data|);
      assert ([ps[0]] + t)[1..] == t;
      assert Data(ps)[..n] == ps[0].data + Data(ps[1..])[..n - |ps[0].data|];
    }
  }

  lemma {:induction false} TrimFilled(ps: seq<Pbuf>, n: nat)
    requires Filled(ps) && ps != [] && 0 < n <= |Data(ps)|
    ensures Filled(TrimPbufs(ps, n)) && (ps[0].data != [] ==> TrimPbufs(ps, n) != [] && TrimPbufs(ps, n)[0].data != [])
    decreases |ps|
  {
    if n > |ps[0].data| {
      assert |Data(ps[1..])| > 0;
      assert ps[1..][0] == ps[1];
      TrimFilled(ps[1..], n - |ps[0].data|);
    }
  }

  /** The checksum run again over the pbufs of the shortened head. */
  method SumPbufs(ps: seq<Pbuf>, le: bool) returns (c: SegChksum)
    ensures ChksumOf(le, c, Data(ps))
  {
    c := NO_DATA;
    var i := 0;
    assert ps[..0] == [];
    while i < |ps|
      invariant i <= |ps| && ChksumOf(le, c, Data(ps[..i]))
    {
      assert ps[..i + 1] == ps[..i] + [ps[i]];
      DataAppend(ps[..i], [ps[i]]);
      assert Data([ps[i]]) == ps[i].data by { assert |[ps[i]][1..]| == 0; }
      c := AddChksum(le, c, Sum16(le, ps[i].data), |ps[i].data|, Data(ps[..i]), ps[i].data);
      i := i + 1;
    }
    assert ps[..i] == ps;
  }

  /** tcp_split_unsent_seg() on one segment: head and remainder, each with its own checksum. */
  method SplitSegment(s: Seg, split: nat, le: bool, ghost iss: int, ghost pos: int, ghost mss: int)
    returns (head: Seg, rest: Seg)
    requires SegAt(s, iss, pos, mss) && 0 < split < Len(s)
    ensures SegAt(head, iss, pos, mss) && SegAt(rest, iss, pos + split, mss) && Len(head) == split
    ensures Summed(head, le) && Summed(rest, le)
    ensures Data(head.pbufs) + Data(rest.pbufs) == Data(s.pbufs)
    ensures |rest.pbufs| == 1 && |head.pbufs| <= |s.pbufs| && !rest.pbufs[0].rom
  {
    hide Data, ChksumOf, TrimPbufs, Wrap, Filled;
    var bytes := Data(s.pbufs)[split..];
    PbufsData(bytes);
    TrimFilled(s.pbufs, split);
    TrimPbufsData(s.pbufs, split);
    WrapAdd(iss + pos, split);
    var restChk := ChecksumOf(le, bytes);
    rest := Seg(Wrap(s.seqno + split), [Pbuf(bytes, false)], restChk);
    var trimmed := TrimPbufs(s.pbufs, split);
    var chk := SumPbufs(trimmed, le);
    head := Seg(s.seqno, trimmed, chk);
    TakeDrop(Data(s.pbufs), split);
  }

  lemma {:induction false} TakeDrop(a: seq<byte>, n: nat)
    requires n <= |a|
    ensures a[..n] + a[n..] == a && |a[..n]| == n && |a[n..]| == |a| - n
  {
  }

  lemma {:induction false} SliceHalves(a: seq<byte>, b: seq<byte>, stream: seq<byte>, i: int, j: int, k: int)
    requires 0 <= i <= j <= k <= |stream| && a + b == stream[i..k] && |a| == j - i
    ensures a == stream[i..j] && b == stream[j..k]
  {
    assert a == (a + b)[..j - i] && b == (a + b)[j - i..];
  }

  /** A held segment may be replaced by two that share its payload. */
  lemma {:induction false} HoldsHalves(s: Seg, head: Seg, rest: Seg, stream: seq<byte>, i: int, k: int, iss: int, mss: int)
    requires Holds([s], stream, i, k, iss, mss)
    requires SegAt(head, iss, i, mss) && SegAt(rest, iss, i + Len(head), mss)
    requires Data(head.pbufs) + Data(rest.pbufs) == Data(s.pbufs)
    ensures Holds([head, rest], stream, i, k, iss, mss) && Clen([head, rest]) == |head.pbufs| + |rest.pbufs|
  {
    hide Chained, SegAt, Bytes, Clen, Data;
    QueueOne(s, iss, i, mss);
    var j := i + Len(head);
    SliceHalves(Data(head.pbufs), Data(rest.pbufs), stream, i, j, k);
    HoldsOne(head, stream, i, j, iss, mss);
    HoldsOne(rest, stream, j, k, iss, mss);
    HoldsJoin([head], [rest], stream, i, j, k, iss, mss);
    assert [head] + [rest] == [head, rest];
    QueueOne(head, iss, i, mss);
    QueueOne(rest, iss, j, mss);
  }

  /** The queues after the head of unsent was split. */
  lemma {:induction false} SplitKeepsQueues(unacked: seq<Seg>, unsent: seq<Seg>, head: Seg, rest: Seg, queuelen: int, oversize: nat,
                         written: seq<byte>, base: int, iss: int, mss: int, le: bool)
    requires Queues(unacked, unsent, queuelen, oversize, written, base, iss, mss, le) && unsent != []
    requires var pos := base + |Bytes(unacked)|;
      SegAt(head, iss, pos, mss) && SegAt(rest, iss, pos + Len(head), mss)
    requires Data(head.pbufs) + Data(rest.pbufs) == Data(unsent[0].pbufs) && Summed(head, le) && Summed(rest, le)
    ensures Queues(unacked, [head, rest] + unsent[1..], queuelen - |unsent[0].pbufs| + |head.pbufs| + |rest.pbufs|,
                   if |unsent| == 1 then 0 else oversize, written, base, iss, mss, le)
  {
    hide Holds, Bytes, Clen, Data, Summed, Wrap;
    var tail := unsent[1..];
    assert unsent == [unsent[0]] + tail;
    SplitKeepsChain(unacked, unsent[0], tail, head, rest, written, base, iss, mss);
    SuffixSpare(unsent, tail, oversize, mss, le);
    assert AllSummed([head, rest] + tail, le);
    assert |unsent| == 1 ==> [head, rest] + tail == [head, rest];
  }

  lemma {:induction false} SplitKeepsChain(unacked: seq<Seg>, s: Seg, tail: seq<Seg>, head: Seg, rest: Seg,
                        written: seq<byte>, base: int, iss: int, mss: int)
    requires Holds(unacked + ([s] + tail), written, base, |written|, iss, mss)
    requires var pos := base + |Bytes(unacked)|;
      SegAt(head, iss, pos, mss) && SegAt(rest, iss, pos + Len(head), mss)
    requires Data(head.pbufs) + Data(rest.pbufs) == Data(s.pbufs)
    ensures Holds(unacked + ([head, rest] + tail), written, base, |written|, iss, mss)
    ensures Clen(unacked + ([head, rest] + tail)) == Clen(unacked + ([s] + tail)) - |s.pbufs| + |head.pbufs| + |rest.pbufs|
  {
    hide Holds, SegAt, Bytes, Clen, Data;
    var n, pos := |written|, base + |Bytes(unacked)|;
    HoldsSplit(unacked, [s] + tail, written, base, n, iss, mss);
    HoldsSplit([s], tail, written, pos, n, iss, mss);
    QueueOne(s, iss, pos, mss);
    var end := pos + Len(s);
    HoldsHalves(s, head, rest, written, pos, end, iss, mss);
    HoldsJoin([head, rest], tail, written, pos, end, n, iss, mss);
    HoldsJoin(unacked, [head, rest] + tail, written, base, pos, n, iss, mss);
  }

  /** The head of unsent replaced by its two parts, all accounts settled. */
  method SplitQueues(unacked: seq<Seg>, unsent: seq<Seg>, split: nat, queuelen: u16, oversize: u16, le: bool,
                     ghost written: seq<byte>, ghost base: int, ghost iss: int, ghost mss: int)
    returns (us: seq<Seg>, ql: u16, os: u16)
    requires Queues(unacked, unsent, queuelen, oversize, written, base, iss, mss, le) && |written| - base <= TCP_SND_BUF
    requires unsent != [] && 0 < split < Len(unsent[0])
    ensures Queues(unacked, us, ql, os, written, base, iss, mss, le)
    ensures Bytes(unacked + us) == Bytes(unacked + unsent)
    ensures |us| == |unsent| + 1 && Len(us[0]) == split && us[2..] == unsent[1..]
  {
    hide Queues, Bytes, Data, Summed, Wrap, SegAt, Clen;
    HeadIsAt(unacked, unsent, queuelen, oversize, written, base, iss, mss, le);
    var useg := unsent[0];
    var head, rest := SplitSegment(useg, split, le, iss, base + |Bytes(unacked)|, mss);
    SplitKeepsQueues(unacked, unsent, head, rest, queuelen, oversize, written, base, iss, mss, le);
    us := [head, rest] + unsent[1..];
    PbufsCounted(unacked, unsent, queuelen, oversize, written, base, iss, mss, le);
    var count: int := queuelen - |useg.pbufs| + |head.pbufs| + |rest.pbufs|;
    os := if |unsent| == 1 then 0 else oversize;
    CountFits(unacked, us, count, os, written, base, iss, mss, le, 1);
    SameStream(unacked, unsent, unacked, us, queuelen, count, oversize, os, written, base, iss, mss, le);
    ql := count;
  }

  /** A remainder has a single pbuf, so the count of all pbufs fits sixteen bits. */
  lemma {:induction false} CountFits(unacked: seq<Seg>, unsent: seq<Seg>, queuelen: int, oversize: nat,
                                     written: seq<byte>, base: int, iss: int, mss: int, le: bool, k: nat)
    requires Queues(unacked, unsent, queuelen, oversize, written, base, iss, mss, le) && |written| - base <= TCP_SND_BUF
    requires k < |unsent| && |unsent[k].pbufs| == 1
    ensures 0 <= queuelen <= 0xffff
  {
    hide Chained, Clen, Bytes, Data;
    assert (unacked + unsent)[|unacked| + k] == unsent[k];
    ClenBound(unacked + unsent, iss, base, mss, |unacked| + k);
  }

  lemma {:induction false} PbufsCounted(unacked: seq<Seg>, unsent: seq<Seg>, queuelen: int, oversize: nat,
                     written: seq<byte>, base: int, iss: int, mss: int, le: bool)
    requires Queues(unacked, unsent, queuelen, oversize, written, base, iss, mss, le) && unsent != []
    ensures |unsent[0].pbufs| <= queuelen
  {
    hide Holds, AllSummed;
    QueueAppend(unacked, unsent);
  }

  // ---------------------------------------------------------------- the wire

  function PbufChain(hdr: seq<byte>, ps: seq<Pbuf>): Chain
    requires ps != []
  {
    [hdr + ps[0].data] + seq(|ps| - 1, i requires 0 <= i < |ps| - 1 => ps[i + 1].data)
  }

  lemma {:induction false} PbufChainFlat(hdr: seq<byte>, ps: seq<Pbuf>)
    requires ps != []
    ensures Flat(PbufChain(hdr, ps)) == hdr + Data(ps)
    decreases |ps|
  {
    var c := PbufChain(hdr, ps);
    if |ps| == 1 {
      assert |c[1..]| == 0 && |ps[1..]| == 0;
    } else {
      assert c[1..] == PbufChain([], ps[1..]) by { assert c[1] == [] + ps[1].data; }
      PbufChainFlat([], ps[1..]);
      assert c[0] + ([] + Data(ps[1..])) == hdr + (ps[0].data + Data(ps[1..]));
    }
  }

  /** The checksum tcp_output_segment() writes into the header of a queued segment, built from the sum kept while
      copying, is the inverted sum over pseudo header, header and payload; with it in its field (number 16 in the
      header) the sum is 0xffff for every receiver. */
  method SegmentChksum(s: Seg, hdr: seq<byte>, addresses: seq<byte>, proto: byte, totLen: u16, le: bool) returns (r: u16)
    requires Summed(s, le) && s.pbufs != [] && |hdr| % 2 == 0 && 20 <= |hdr| <= 60 && hdr[16] == 0 && hdr[17] == 0
    requires |addresses| % 2 == 0 && |addresses| <= 32
    ensures r == ONES - Sum16(le, PseudoHeader(addresses, proto, totLen) + (hdr + Data(s.pbufs)))
    ensures forall le' :: Sum16(le', PseudoHeader(addresses, proto, totLen) + hdr[..16] + Stored(le, r) + (hdr[18..] + Data(s.pbufs))) == ONES
  {
    hide Sum16, ChksumOf, PseudoChksum, Data, Halves, PseudoHeader, Stored;
    var body := hdr + Data(s.pbufs);
    HalvesCount(le, addresses);
    PbufChainFlat(hdr, s.pbufs);
    assert body[|hdr|..] == Data(s.pbufs);
    r := OutputChksum(le, PbufChain(hdr, s.pbufs), |hdr|, s.chk, Halves(le, addresses), proto, totLen);
    PseudoOnBytes(le, addresses, proto, totLen, body);
    assert body[..16] == hdr[..16] && body[18..] == hdr[18..] + Data(s.pbufs);
    ReceiverAccepts(le, false, addresses, proto, totLen, body, 16);
    ReceiverAccepts(le, true, addresses, proto, totLen, body, 16);
  }

  lemma {:induction false} RequeueAll(unacked: seq<Seg>, unsent: seq<Seg>, queuelen: int, oversize: nat,
                   written: seq<byte>, base: int, iss: int, mss: int, le: bool)
    requires Queues(unacked, unsent, queuelen, oversize, written, base, iss, mss, le)
    ensures Queues([], unacked + unsent, queuelen, oversize, written, base, iss, mss, le)
  {
    hide Bytes, Clen, Data, Summed, Wrap;
    assert [] + (unacked + unsent) == unacked + unsent;
    assert AllSummed(unacked + unsent, le);
    if unsent == [] && unacked != [] {
      var n := |unacked| - 1;
      assert unacked + unsent == unacked[..n] + [unacked[n]];
      LastFits(unacked[..n], unacked[n], written, base, iss, mss);
    }
  }

  lemma {:induction false} HeadIsAt(unacked: seq<Seg>, unsent: seq<Seg>, queuelen: int, oversize: nat,
                 written: seq<byte>, base: int, iss: int, mss: int, le: bool)
    requires unsent != [] && Queues(unacked, unsent, queuelen, oversize, written, base, iss, mss, le)
    ensures SegAt(unsent[0], iss, base + |Bytes(unacked)|, mss)
  {
    hide Chained, Bytes, Clen, Data, Wrap;
    HoldsSplit(unacked, unsent, written, base, |written|, iss, mss);
    var pos := base + |Bytes(unacked)|;
    assert unsent == [unsent[0]] + unsent[1..];
    HoldsSplit([unsent[0]], unsent[1..], written, pos, |written|, iss, mss);
    QueueOne(unsent[0], iss, pos, mss);
  }

  lemma {:induction false} SameStream(a: seq<Seg>, b: seq<Seg>, c: seq<Seg>, d: seq<Seg>, m: int, n: int, o: nat, p: nat,
                   written: seq<byte>, base: int, iss: int, mss: int, le: bool)
    requires Queues(a, b, m, o, written, base, iss, mss, le) && Queues(c, d, n, p, written, base, iss, mss, le)
    ensures Bytes(a + b) == Bytes(c + d)
  {
  }

  lemma {:induction false} BytesAtLeast(q: seq<Seg>)
    ensures q != [] ==> Len(q[0]) <= |Bytes(q)|
  {
  }

  lemma {:induction false} OffsetExact(iss: int, mid: int, una: int, len: int)
    requires 0 <= mid + len - una < M32
    ensures Wrap(Wrap(Wrap(iss + mid) - Wrap(iss + una)) + len) == mid + len - una
  {
    var a, b := iss + mid, iss + una;
    assert a == M32 * (a / M32) + Wrap(a) && b == M32 * (b / M32) + Wrap(b);
    WrapOfSum(Wrap(a) - Wrap(b), a / M32 - b / M32);
    assert a - b == Wrap(a) - Wrap(b) + M32 * (a / M32 - b / M32);
    WrapAdd(a - b, len);
  }

  /** For any acknowledgement number at all. */
  lemma {:induction false} CompareAck(ackno: u32, iss: int, una: int, nxt: int)
    requires 0 <= nxt - una <= TCP_SND_BUF
    ensures var d := Diff(ackno, Wrap(iss + una));
      && ackno == Wrap(iss + (una + d))
      && (d > 0 ==> (SeqBetween(ackno, Wrap(Wrap(iss + una) + 1), Wrap(iss + nxt)) <==> una + d <= nxt))
  {
    var ack := una + Diff(ackno, Wrap(iss + una));
    NearestPosition(ackno, iss + una);
    WrapAdd(iss + una, 1);
    DiffExact(iss + ack, iss + una + 1);
    DiffExact(iss + ack, iss + nxt);
  }

  /** A segment that ends below lastack lies outside every window: its offset wraps. */
  lemma {:induction false} BelowAckNeverFits(iss: int, mid: int, una: int, len: int, window: u16)
    requires mid + len < una <= mid + len + TCP_SND_BUF
    ensures Wrap(Wrap(Wrap(iss + mid) - Wrap(iss + una)) + len) > window
  {
    OffsetExact(iss, mid + M32, una, len);
    WrapOfSum(iss + mid, 1);
  }

  /** One call, timer or arriving segment, as far as the send side is concerned. */
  datatype Op =
    | WriteOp(data: seq<byte>, copy: bool, more: bool, adjacent: bool, mem: nat, mayWrite: bool)
    | OutputOp(cap: nat)
    | AckOp(ackno: u32)
    | WindowOp(wnd: u16)
    | CwndOp(cwnd: u16)
    | RtoOp(busy: bool)
    | FastOp(busy: bool)
    | SplitOp(split: u16, mem: nat)

  /** What Queues says of the two queues as one. */
  lemma {:induction false} QueuesSay(unacked: seq<Seg>, unsent: seq<Seg>, queuelen: int, oversize: nat,
                  written: seq<byte>, base: int, iss: int, mss: int, le: bool)
    requires Queues(unacked, unsent, queuelen, oversize, written, base, iss, mss, le)
    ensures 0 <= base <= |written| && Bytes(unacked + unsent) == written[base..] && queuelen == Clen(unacked + unsent)
  {
    assert written[base..|written|] == written[base..];
  }

  lemma {:induction false} QueueFacts(unacked: seq<Seg>, unsent: seq<Seg>, queuelen: int, oversize: nat,
                   written: seq<byte>, base: int, iss: int, mss: int, le: bool)
    requires Queues(unacked, unsent, queuelen, oversize, written, base, iss, mss, le)
    ensures Holds(unacked + unsent, written, base, |written|, iss, mss)
    ensures |Bytes(unacked)| <= |written| - base
  {
    hide Chained, Clen, Data, Bytes;
    HoldsSplit(unacked, unsent, written, base, |written|, iss, mss);
  }

  /** A write leaves the oldest byte that is not acknowledged in the first segment. */
  lemma {:induction false} PendingGrows(unacked: seq<Seg>, unsent: seq<Seg>, unsent': seq<Seg>, queuelen: int, oversize: nat,
                                        ql: int, os: nat, written: seq<byte>, data: seq<byte>, base: int, una: int,
                                        iss: int, mss: int, le: bool)
    requires Queues(unacked, unsent, queuelen, oversize, written, base, iss, mss, le) && una <= |written|
    requires Queues(unacked, unsent', ql, os, written + data, base, iss, mss, le)
    requires |unsent| <= |unsent'| && (forall i :: 0 <= i < |unsent| - 1 ==> unsent'[i] == unsent[i])
    requires unsent != [] ==> Len(unsent'[|unsent| - 1]) >= Len(unsent[|unsent| - 1])
    requires Pending(unacked + unsent, base, una)
    ensures Pending(unacked + unsent', base, una)
  {
    hide Clen, Data, Summed;
    if unacked + unsent == [] && unsent' != [] {
      assert (unacked + unsent')[0] == unsent'[0];
      assert SegAt(unsent'[0], iss, base, mss);
    }
  }

  lemma {:induction false} FirstUnacked(unacked: seq<Seg>, unsent: seq<Seg>, queuelen: int, oversize: nat,
                                        written: seq<byte>, base: int, iss: int, mss: int, le: bool)
    requires unacked != [] && Queues(unacked, unsent, queuelen, oversize, written, base, iss, mss, le)
    ensures unacked[0].seqno == Wrap(iss + base) && 0 < Len(unacked[0]) && base + Len(unacked[0]) <= |written|
  {
    hide Chained, Bytes, Data, Clen, Wrap;
    var q := unacked + unsent;
    ElementAt(q, written, base, |written|, iss, mss, 0);
    assert q[0] == unacked[0] && q[..0] == [];
    NoBytes();
  }

  lemma {:induction false} MssWithin(mss: u16, sndWndMax: u16)
    requires mss > 0
    ensures 0 < MssLocal(mss, sndWndMax) <= mss
  {
  }

  /** The first unacked segment is the first to be sent; both queues are in order and no segment is lost. */
  ghost predicate Requeued(unacked: seq<Seg>, unsent: seq<Seg>, ua: seq<Seg>, us: seq<Seg>) {
    && unacked != [] && ua == unacked[1..] && us == [unacked[0]] + unsent
    && Ascending(ua) && Ascending(us) && multiset(ua + us) == multiset(unacked + unsent)
  }

  lemma {:induction false} RequeuedBack(unacked: seq<Seg>, unsent: seq<Seg>, ua: seq<Seg>, us: seq<Seg>)
    requires Requeued(unacked, unsent, ua, us)
    ensures us != [] && [us[0]] + ua == unacked && us[1..] == unsent
  {
    hide Ascending;
  }

  /** tcp_rexmit() on the queues of a connection, with the spare room behind unsent. */
  method RexmitQueues(unacked: seq<Seg>, unsent: seq<Seg>, busy: bool, queuelen: u16, oversize: u16, le: bool,
                      ghost written: seq<byte>, ghost base: int, ghost iss: int, ghost mss: int)
    returns (err: Err, ua: seq<Seg>, us: seq<Seg>, os: u16)
    requires Queues(unacked, unsent, queuelen, oversize, written, base, iss, mss, le) && |written| - base <= TCP_SND_BUF
    ensures err == ErrOk <==> unacked != [] && !busy
    ensures err == ErrOk ==> Requeued(unacked, unsent, ua, us) && os == oversize
  {
    hide Queues, Holds, Ascending;
    os := oversize;
    var i;
    err, ua, us, i := Rexmit(unacked, unsent, busy);
    if err == ErrOk {
      QueueFacts(unacked, unsent, queuelen, oversize, written, base, iss, mss, le);
      HeldAscending(unacked + unsent, written, base, |written|, iss, mss);
      FastRetransmitKeepsOrder(unacked, unsent);
      if unsent == [] { SpareNone(unacked, queuelen, oversize, written, base, iss, mss, le); }
      SameSegments(unacked, unsent);
      if i == |unsent| {
        os := 0;                        // it is the last of unsent now
      }
    }
  }

  lemma {:induction false} PhasedGrown(unsent: seq<Seg>, us: seq<Seg>, data: seq<byte>, mss: nat, written: seq<byte>, iss: int, le: bool)
    requires Phased(unsent, us, data, mss, written, iss, le)
    ensures Grown(unsent, us, data, mss) && |us| == |unsent| + NewSegments(unsent, |data|, mss)
    ensures unsent != [] ==> Len(us[|unsent| - 1]) >= Len(unsent[|unsent| - 1])
  {
    hide Holds, AllSummed, NewSegments;
  }

  lemma {:induction false} WaitingCanGrow(unacked: seq<Seg>, unsent: seq<Seg>, queuelen: int, oversize: nat,
                                          written: seq<byte>, base: int, iss: int, mss: nat, lim: int, le: bool)
    requires unsent != [] && Queues([unsent[0]] + unacked, unsent[1..], queuelen, oversize, written, base, iss, lim, le)
    requires Len(unsent[|unsent| - 1]) + oversize <= mss
    ensures CanGrow(unsent, oversize, mss, le)
  {
    hide Holds, Data, Clen, ChksumOf, Filled;
    if |unsent| > 1 {
      assert unsent[1..][|unsent| - 2] == unsent[|unsent| - 1];
      QueuesCanGrow([unsent[0]] + unacked, unsent[1..], queuelen, oversize, written, base, iss, mss, lim, le);
    } else {
      SpareNone([unsent[0]] + unacked, queuelen, oversize, written, base, iss, lim, le);
      assert ([unsent[0]] + unacked)[0] == unsent[0];
      assert [unsent[0]] + unacked + unsent[1..] == [unsent[0]] + unacked;
      HoldsHead(unsent[0], unacked, written, base, iss, lim);
    }
  }

  lemma {:induction false} HoldsHead(seg: Seg, rest: seq<Seg>, written: seq<byte>, base: int, iss: int, mss: int)
    requires Holds([seg] + rest, written, base, |written|, iss, mss)
    ensures SegAt(seg, iss, base, mss)
  {
    hide Chained, Bytes, Data, Clen, Wrap, Filled;
    HoldsSplit([seg], rest, written, base, |written|, iss, mss);
    QueueOne(seg, iss, base, mss);
  }

  /** Behind a segment that waits, others are unsent: the write is behind the last of them. */
  lemma {:induction false} StagedBehindMore(unacked: seq<Seg>, unsent: seq<Seg>, us: seq<Seg>, queuelen: int, oversize: nat, ql: int, os: nat,
                                            data: seq<byte>, written: seq<byte>, base: int, iss: int, mss: nat, lim: int, le: bool)
    requires |unsent| > 1 && Queues([unsent[0]] + unacked, unsent[1..], queuelen, oversize, written, base, iss, lim, le) && mss <= lim
    requires Phased(unsent, us, data, mss, written, iss, le) && SpareOk(us, os, mss) && ql == queuelen + PbufsAdded(unsent, us)
    ensures StagedBehind(unacked, unsent, us, ql, os, written + data, base, iss, lim, le, true)
  {
    hide Queues, Holds, Bytes, Data, Clen;
    PhasedTail(unsent, us, data, mss, written, iss, le);
    assert us[0] == unsent[0] && SpareOk(us[1..], os, mss);
    PhasesContinue([unsent[0]] + unacked, unsent[1..], us[1..], queuelen, oversize, os, data, written, base, iss, mss, lim, le);
    QueueFacts([us[0]] + unacked, us[1..], ql, os, written + data, base, iss, lim, le);
    if unacked == [] {
      assert [us[0]] + unacked == [us[0]];
      RequeueAll([us[0]], us[1..], ql, os, written + data, base, iss, lim, le);
      assert [us[0]] + us[1..] == us;
    }
  }

  lemma {:induction false} PhasedTail(unsent: seq<Seg>, us: seq<Seg>, data: seq<byte>, mss: nat, written: seq<byte>, iss: int, le: bool)
    requires |unsent| > 1 && Phased(unsent, us, data, mss, written, iss, le)
    ensures Phased(unsent[1..], us[1..], data, mss, written, iss, le) && PbufsAdded(unsent[1..], us[1..]) == PbufsAdded(unsent, us)
    ensures us[0] == unsent[0]
  {
    hide Holds, Data, Clen, AllSummed, Segments;
    var n := |unsent| - 1;
    assert us[1..][n..] == us[|unsent|..] && unsent[1..][n - 1] == unsent[n] && us[1..][n - 1] == us[n];
    assert Room(unsent[1..], mss) == Room(unsent, mss);
  }

  /** ... and the same when it is the only unsent segment. */
  lemma {:induction false} StagedBehindOne(unacked: seq<Seg>, unsent: seq<Seg>, us: seq<Seg>, queuelen: int, oversize: nat, ql: int, os: nat,
                                           data: seq<byte>, written: seq<byte>, base: int, iss: int, mss: nat, lim: int, le: bool)
    requires |unsent| == 1 && Queues([unsent[0]] + unacked, unsent[1..], queuelen, oversize, written, base, iss, lim, le) && mss <= lim
    requires |written| + |data| - base <= TCP_SND_BUF
    requires Phased(unsent, us, data, mss, written, iss, le) && SpareOk(us, os, mss) && ql == queuelen + PbufsAdded(unsent, us)
    requires data == [] ==> os == oversize
    ensures StagedBehind(unacked, unsent, us, ql, os, written + data, base, iss, lim, le, Continues(unacked, unsent, |data|, mss))
  {
    hide Queues, Holds, Bytes, Data, Clen, Phased, PbufsAdded;
    var seg := unsent[0];
    assert unsent == [seg] && unsent[1..] == [];
    PhasedGrown(unsent, us, data, mss, written, iss, le);
    assert us != [];
    SpareNone([seg] + unacked, queuelen, oversize, written, base, iss, lim, le);
    QueueFacts([seg] + unacked, [], queuelen, oversize, written, base, iss, lim, le);
    assert [seg] + unacked + [] == [seg] + unacked;
    BehindRetransmissionIff(seg, unacked, us, data, written, base, iss, mss, lim, le);
    if unacked == [] {
      assert [seg] + unacked == [seg];
      RequeueAll([seg], [], queuelen, oversize, written, base, iss, lim, le);
      assert [seg] + [] == [seg];
      PhasesContinue([], [seg], us, queuelen, oversize, os, data, written, base, iss, mss, lim, le);
    } else if Taken(unsent, |data|, mss) == 0 {
      QueuesBehind(seg, unacked, us, queuelen, ql, os, data, written, base, iss, mss, lim, le);
    }
  }

  /** Nothing was taken behind the segment that waits: its new form has the same bytes. */
  lemma {:induction false} QueuesBehind(seg: Seg, unacked: seq<Seg>, us: seq<Seg>, queuelen: int, ql: int, os: nat,
                                        data: seq<byte>, written: seq<byte>, base: int, iss: int, mss: nat, lim: int, le: bool)
    requires Queues([seg] + unacked, [], queuelen, 0, written, base, iss, lim, le) && mss <= lim
    requires Phased([seg], us, data, mss, written, iss, le) && SpareOk(us, os, mss) && ql == queuelen + PbufsAdded([seg], us)
    requires Taken([seg], |data|, mss) == 0 && (data == [] ==> os == 0)
    requires Holds([us[0]] + unacked + us[1..], written + data, base, |written| + |data|, iss, lim)
    ensures Queues([us[0]] + unacked, us[1..], ql, os, written + data, base, iss, lim, le)
    ensures |Bytes([us[0]] + unacked)| == |Bytes([seg] + unacked)|
  {
    hide Holds, Bytes, Clen, Data, Summed, Segments, Filled;
    var queue := us[1..];
    QueueOne(seg, iss, base, lim);
    QueueOne(us[0], iss, base, lim);
    QueueAppend([seg], unacked);
    QueueAppend([us[0]], unacked);
    QueueAppend([us[0]] + unacked, queue);
    assert [seg] + unacked + [] == [seg] + unacked;
    assert ([seg] + unacked)[1..] == unacked;
    QueueSummed(us[0], seg, unacked, le);
    if data == [] { NoSegments(mss); }
    if data != [] { SegmentsStep(|data|, mss); }
    if queue != [] { assert queue[|queue| - 1] == us[|us| - 1]; }
  }

  lemma {:induction false} QueueSummed(a: Seg, b: Seg, q: seq<Seg>, le: bool)
    requires Summed(a, le) && AllSummed([b] + q, le)
    ensures AllSummed([a] + q, le)
  {
    hide Summed;
    forall i | 0 <= i < |[a] + q| ensures Summed(([a] + q)[i], le) {
      if i > 0 { assert ([a] + q)[i] == ([b] + q)[i]; }
    }
  }

  lemma {:induction false} NoSegments(mss: nat)
    requires mss > 0
    ensures Segments(0, mss) == 0
  {
  }

  lemma {:induction false} SameSegments(unacked: seq<Seg>, unsent: seq<Seg>)
    requires unacked != []
    ensures multiset(unacked[1..] + ([unacked[0]] + unsent)) == multiset(unacked + unsent)
  {
    assert unacked == [unacked[0]] + unacked[1..];
  }

  /** A retransmitted segment is lower than all others, and has been sent before. */
  lemma {:induction false} ResentFacts(seg: Seg, unacked: seq<Seg>, unsent: seq<Seg>, queuelen: int, oversize: nat,
                                       written: seq<byte>, base: int, nxt: int, iss: int, mss: int, le: bool)
    requires Queues([seg] + unacked, unsent, queuelen, oversize, written, base, iss, mss, le)
    requires |written| - base <= TCP_SND_BUF && base + |Bytes([seg] + unacked)| <= nxt <= |written|
    ensures !SeqLt(Wrap(iss + nxt), Wrap(seg.seqno + Len(seg)))
    ensures unacked != [] ==> SeqLt(seg.seqno, unacked[|unacked| - 1].seqno) && !SeqLt(unacked[0].seqno, seg.seqno)
    ensures unsent == [] ==> oversize == 0
  {
    hide Chained, Bytes, Data, Clen, Wrap;
    var q := [seg] + unacked + unsent;
    assert q[0] == seg;
    assert q == [seg] + (unacked + unsent);
    HoldsSplit([seg] + unacked, unsent, written, base, |written|, iss, mss);
    HoldsSplit([seg], unacked, written, base, base + |Bytes([seg] + unacked)|, iss, mss);
    QueueOne(seg, iss, base, mss);
    QueueAppend([seg], unacked);
    CompareNext(iss, base, Len(seg), nxt);
    HeldAscending(q, written, base, |written|, iss, mss);
    if unacked != [] {
      assert q[1] == unacked[0] && q[|unacked|] == unacked[|unacked| - 1];
      SeqGtNotLt(unacked[0].seqno, seg.seqno);
      SeqGtIsLt(unacked[|unacked| - 1].seqno, seg.seqno);
    }
  }

  /** Which segments are stale after the head of unsent has been split. */
  lemma {:induction false} StaleAfterSplit(unacked: seq<Seg>, unsent: seq<Seg>, us: seq<Seg>, base: int, una: int, split: nat)
    requires unsent != [] && us != [] && Len(us[0]) == split < Len(unsent[0]) && base <= una
    ensures Pending(unacked + unsent, base, una) ==> (Pending(unacked + us, base, una) <==> unacked != [] || una < base + split)
    ensures Pending(unacked + unsent, base, una) ==>
      (base + |Bytes(unacked)| + split < una <==> unacked == [] && base + split < una)
  {
    hide Data;
    BytesAtLeast(unacked);
    if unacked == [] {
      assert unacked + us == us;
    } else {
      assert (unacked + us)[0] == unacked[0] && (unacked + unsent)[0] == unacked[0];
    }
  }

  class SendPcb {
    const iss: u32                      // sequence number of the first data byte
    const mss: u16
    const le: bool
    var unacked: seq<Seg>
    var unsent: seq<Seg>
    var sndLbb: u32
    var sndNxt: u32
    var lastack: u32
    var sndBuf: u16
    var sndQueuelen: u16
    var unsentOversize: u16
    var sndWnd: u16
    var sndWndMax: u16
    var cwnd: u16
    var nodelay: bool
    var inFr: bool                      // TF_INFR
    var nagleMemErr: bool               // TF_NAGLEMEMERR
    ghost var written: seq<byte>        // everything tcp_write() accepted
    ghost var base: int                 // stream position of the first queued byte
    ghost var una: int                  // ... of lastack
    ghost var nxt: int                  // ... of snd_nxt

    /** The queues hold the unacknowledged stream, the accounts balance. */
    ghost predicate Valid()
      reads this`unacked, this`unsent, this`sndLbb, this`sndNxt, this`lastack, this`sndBuf, this`sndQueuelen,
            this`unsentOversize, this`written, this`base, this`una, this`nxt
    {
      ValidAs(unacked, unsent)
    }

    /** The same, were these the queues. */
    ghost predicate ValidAs(ua: seq<Seg>, us: seq<Seg>)
      reads this`sndLbb, this`sndNxt, this`lastack, this`sndBuf, this`sndQueuelen,
            this`unsentOversize, this`written, this`base, this`una, this`nxt
    {
      && mss > 0 && sndLbb == Wrap(iss + |written|)
      && Balanced(ua, us, sndQueuelen, unsentOversize, sndBuf, lastack, sndNxt, written, base, una, nxt, iss, mss, le)
    }

    /** No segment that is acknowledged entirely is queued. */
    ghost predicate NothingStale()
      reads this`unacked, this`unsent, this`base, this`una
    {
      Pending(unacked + unsent, base, una)
    }

    /** A segment queued for a fast retransmission is the first of unsent: with it back in its place the queues hold
        the stream. */
    ghost predicate Waiting()
      reads this`unacked, this`unsent, this`sndLbb, this`sndNxt, this`lastack, this`sndBuf, this`sndQueuelen,
            this`unsentOversize, this`written, this`base, this`una, this`nxt
    {
      unsent != [] && ValidAs([unsent[0]] + unacked, unsent[1..])
    }

    /** All segments, with the first unsent one back in its place, hold the unacknowledged stream. */
    ghost predicate InPlace()
      reads this`unacked, this`unsent, this`written, this`base
    {
      unsent != [] && Holds([unsent[0]] + unacked + unsent[1..], written, base, |written|, iss, mss)
    }

    constructor (iss: u32, mss: u16, wnd: u16, le: bool)
      requires mss > 0
      ensures Valid() && NothingStale() && written == [] && fresh(this)
      ensures this.mss == mss && unacked == [] && unsent == [] && sndWnd == sndWndMax == wnd && cwnd == mss
      ensures sndBuf == TCP_SND_BUF && sndQueuelen == 0 && base == una == nxt == 0 && this.iss == iss && this.le == le && !inFr && !nagleMemErr && !nodelay
    {
      this.iss, this.mss, this.le := iss, mss, le;
      unacked, unsent := [], [];
      sndLbb, sndNxt, lastack := iss, iss, iss;
      sndBuf, sndQueuelen, unsentOversize := TCP_SND_BUF, 0, 0;
      sndWnd, sndWndMax, cwnd := wnd, wnd, mss;
      nodelay, inFr, nagleMemErr := false, false, false;
      written, base, una, nxt := [], 0, 0, 0;
    }

    /** The segment size of the next write. */
    function MssNow(): u16
      requires mss > 0
      reads this`sndWndMax
    {
      MssLocal(mss, sndWndMax)
    }

    /** tcp_write_checks() */
    predicate Admits(len: nat)
      reads this`sndBuf, this`sndQueuelen
    {
      len == 0 || (len <= sndBuf && sndQueuelen < TCP_SND_QUEUELEN)
    }

    /** The last unsent segment, with its spare room, is larger than mss_local: both assertions
        of tcp_write() on it come to this. */
    predicate TooSmall()
      requires mss > 0
      reads this`unsent, this`unsentOversize, this`sndWndMax
    {
      unsent != [] && Len(unsent[|unsent| - 1]) + unsentOversize > MssNow()
    }

    /** tcp_write(): on an error nothing changes but a flag; on ERR_OK the stream grows by
        exactly `data`, in as few segments as mss_local allows. `mem` allocations succeed, then
        none; `adjacent` says whether `data` directly follows a ROM reference in memory. */
    method Write(data: seq<byte>, copy: bool, more: bool, adjacent: bool, mem: nat, mayWrite: bool) returns (err: Err)
      requires (Valid() || Waiting()) && |data| < 0x1_0000
      modifies this`unsent, this`unsentOversize, this`sndLbb, this`sndBuf, this`sndQueuelen, this`written, this`nagleMemErr
      ensures old(Valid()) ==> Valid() && (old(NothingStale()) ==> NothingStale())
      // behind a segment that waits to be sent again the data may end up in the wrong place
      ensures old(Waiting()) && err == ErrOk ==>
        && (InPlace() <==> old(Continues(unacked, unsent, |data|, MssNow())))
        && (InPlace() && unacked != [] ==> Waiting()) && (unacked == [] ==> Valid())
      ensures err == ErrConn <==> !mayWrite
      ensures err == Halted <==>
        && mayWrite && (data == [] || (|data| <= old(sndBuf) && old(sndQueuelen) < TCP_SND_QUEUELEN))
        && old(unsent) != [] && Len(old(unsent)[|old(unsent)| - 1]) + old(unsentOversize) > MssNow()
      ensures err == ErrOk || err == ErrMem || err == ErrConn || err == Halted
      ensures written == if err == ErrOk then old(written) + data else old(written)
      ensures err != ErrOk ==> unchanged(this`unsent, this`sndLbb, this`sndBuf, this`sndQueuelen, this`unsentOversize)
      ensures nagleMemErr == (old(nagleMemErr) || err == ErrMem)
      ensures mayWrite && data != [] && (|data| > old(sndBuf) || old(sndQueuelen) >= TCP_SND_QUEUELEN) ==> err == ErrMem
      // as much as fits is behind the last segment, and there are no more new ones than it takes
      ensures err == ErrOk ==> Grown(old(unsent), unsent, data, MssNow())
      ensures err == ErrOk ==> |unsent| == |old(unsent)| + NewSegments(old(unsent), |data|, MssNow())
      // all but the last of them are of the full size
      ensures err == ErrOk ==> forall i :: |old(unsent)| <= i < |unsent| - 1 ==> Len(unsent[i]) == MssNow()
      // one or two pbufs and a tcp_seg for each, and perhaps one pbuf behind the last segment
      ensures var n := NewSegments(old(unsent), |data|, MssNow());
        && mayWrite && (data == [] || (|data| <= old(sndBuf) && old(sndQueuelen) < TCP_SND_QUEUELEN))
        && (old(unsent) == [] || Len(old(unsent)[|old(unsent)| - 1]) + old(unsentOversize) <= MssNow())
        && mem > n * (if copy then 2 else 3) && old(sndQueuelen) + 1 + n * (if copy then 1 else 2) <= TCP_SND_QUEUELEN
        ==> err == ErrOk
    {
      hide Balanced, Pending, Wrap, MssLocal, NewSegments, Len, Grown, Holds, Continues;
      if !mayWrite {
        return ErrConn;
      }
      if |data| > 0 && (|data| > sndBuf || sndQueuelen >= TCP_SND_QUEUELEN) {
        nagleMemErr := true;
        return ErrMem;
      }
      if TooSmall() {
        return Halted;
      }
      var ok, us, ql, os := StageData(data, copy, more, adjacent, mem);
      if !ok {
        nagleMemErr := true;
        return ErrMem;
      }
      GrownFull(unsent, us, data, MssNow());
      Commit(data, us, ql, os);
      return ErrOk;
    }

    /** `us`, `ql` and `os` are the unsent queue, its pbufs and its spare room once `data` is behind it. */
    ghost predicate Staged(data: seq<byte>, us: seq<Seg>, ql: int, os: nat)
      requires mss > 0
      reads this
    {
      && Grown(unsent, us, data, MssNow()) && |us| == |unsent| + NewSegments(unsent, |data|, MssNow())
      && (Valid() ==>
            Queues(unacked, us, ql, os, written + data, base, iss, mss, le) && (NothingStale() ==> Pending(unacked + us, base, una)))
      && (Waiting() ==>
            StagedBehind(unacked, unsent, us, ql, os, written + data, base, iss, mss, le, Continues(unacked, unsent, |data|, MssNow())))
    }

    /** Enough memory and queue room: one or two pbufs and a tcp_seg for each new segment, and perhaps one
        pbuf behind the last segment. */
    predicate Suffices(len: nat, copy: bool, mem: nat)
      requires mss > 0
      reads this`unsent, this`sndQueuelen, this`sndWndMax
    {
      mem > 0 && Enough(copy, mem - 1, sndQueuelen + 1, NewSegments(unsent, len, MssNow()))
    }

    /** The three phases of tcp_write(), nothing changed yet. */
    method StageData(data: seq<byte>, copy: bool, more: bool, adjacent: bool, mem: nat)
      returns (ok: bool, us: seq<Seg>, ql: u16, os: u16)
      requires (Valid() || Waiting()) && Admits(|data|) && !TooSmall()
      ensures ok ==> Staged(data, us, ql, os)
      ensures Suffices(|data|, copy, mem) ==> ok
    {
      hide Queues, Pending, Bytes, Wrap, MssLocal, Data, NewSegments, Enough, Len, CanGrow, Phased, SpareOk, StagedBehind, Continues, PbufsAdded;
      var mode := WriteMode(copy, more, nodelay, unsent == [] && unacked == []);
      var size := MssNow();
      MssWithin(mss, sndWndMax);
      if Valid() {
        QueuesCanGrow(unacked, unsent, sndQueuelen, unsentOversize, written, base, iss, size, mss, le);
      } else {
        WaitingCanGrow(unacked, unsent, sndQueuelen, unsentOversize, written, base, iss, size, mss, le);
      }
      ok, us, ql, os := Stage(unsent, data, mode, size, sndLbb, sndQueuelen, unsentOversize, adjacent, mem, le, written, iss);
      if ok {
        PhasedGrown(unsent, us, data, size, written, iss, le);
        if Valid() {
          PhasesContinue(unacked, unsent, us, sndQueuelen, unsentOversize, os, data, written, base, iss, size, mss, le);
          if NothingStale() {
            PendingGrows(unacked, unsent, us, sndQueuelen, unsentOversize, ql, os, written, data, base, una, iss, mss, le);
          }
        }
        if Waiting() {
          WaitingStaged(unacked, unsent, us, sndQueuelen, unsentOversize, ql, os, data, written, base, iss, size, mss, le);
        }
      }
    }

    /** The commit of tcp_write(). */
    method Commit(data: seq<byte>, us: seq<Seg>, ql: u16, os: u16)
      requires (Valid() || Waiting()) && |data| <= sndBuf && Staged(data, us, ql, os)
      modifies this`unsent, this`unsentOversize, this`sndLbb, this`sndBuf, this`sndQueuelen, this`written
      ensures written == old(written) + data && unsent == us
      ensures old(Valid()) ==> Valid() && (old(NothingStale()) ==> NothingStale())
      ensures old(Waiting()) ==>
        && (InPlace() <==> old(Continues(unacked, unsent, |data|, MssNow())))
        && (InPlace() && unacked != [] ==> Waiting()) && (unacked == [] ==> Valid())
    {
      hide Queues, Pending, Bytes, Wrap, MssLocal, Data, NewSegments, Enough, Len, Grown, Holds, Continues;
      WrapAdd(iss + |written|, |data|);
      NoBytes();
      unsent := us;
      unsentOversize := os;
      sndLbb := Wrap(sndLbb + |data|);
      sndBuf := sndBuf - |data|;
      sndQueuelen := ql;
      written := written + data;
    }

    /** The queue part of an acknowledgement, whatever number it carries; `ack` is the stream
        position it stands for. */
    method Ack(ackno: u32) returns (isNew: bool, ghost ack: int)
      requires Valid()
      modifies this`unacked, this`unsent, this`sndBuf, this`sndQueuelen, this`unsentOversize, this`lastack, this`base, this`una, this`inFr
      ensures Valid() && ack == old(una) + Diff(ackno, old(lastack)) && isNew == (old(una) < ack <= nxt)
      ensures !isNew ==> unchanged(this)
      ensures isNew ==> una == ack && NothingStale() && unacked + unsent == Survivors(old(unacked + unsent), old(base), ack)
      ensures isNew ==> unacked == Survivors(old(unacked), old(base), ack)
      ensures isNew ==> !inFr && unsentOversize == (if unsent == [] then 0 else old(unsentOversize))
      ensures isNew ==> sndBuf == old(sndBuf) + (base - old(base))
    {
      hide Queues, Pending, Bytes, Survivors, Wrap, SeqBetween, Diff;
      CompareAck(ackno, iss, una, nxt);
      ack := una + Diff(ackno, lastack);
      isNew := false;
      if !SeqLeq(ackno, lastack) && SeqBetween(ackno, Wrap(lastack + 1), sndNxt) {
        isNew := true;
        AckNew(ackno, ack);
      }
    }

    method AckNew(ackno: u32, ghost ack: int)
      requires Balanced(unacked, unsent, sndQueuelen, unsentOversize, sndBuf, lastack, sndNxt, written, base, una, nxt, iss, mss, le)
      requires ackno == Wrap(iss + ack) && una < ack <= nxt
      modifies this`unacked, this`unsent, this`sndBuf, this`sndQueuelen, this`unsentOversize, this`lastack, this`base, this`una, this`inFr
      ensures Balanced(unacked, unsent, sndQueuelen, unsentOversize, sndBuf, lastack, sndNxt, written, base, una, nxt, iss, mss, le)
      ensures Pending(unacked + unsent, base, una) && una == ack && unacked + unsent == Survivors(old(unacked + unsent), old(base), ack)
      ensures unacked == Survivors(old(unacked), old(base), ack)
      ensures !inFr && unsentOversize == (if unsent == [] then 0 else old(unsentOversize))
    {
      hide Balanced, Pending, Bytes, Survivors, Wrap;
      var ua, us, ql, os, acked :=
        AckQueues(unacked, unsent, ackno, sndQueuelen, unsentOversize, sndBuf, lastack, sndNxt, le, written, base, una, ack, nxt, iss, mss);
      inFr := false;
      lastack, una := ackno, ack;
      unacked, unsent, sndQueuelen, unsentOversize := ua, us, ql, os;
      base := base + acked;
      sndBuf := sndBuf + acked;
    }

    /** Where the head of unsent ends. */
    ghost function HeadEnd(): int
      requires unsent != []
      reads this`unacked, this`unsent, this`base
    {
      base + |Bytes(unacked)| + Len(unsent[0])
    }

    /** The head of unsent lies below lastack altogether. */
    ghost predicate Stuck()
      reads this`unacked, this`unsent, this`base, this`una
    {
      unsent != [] && HeadEnd() < una
    }

    /** The head of unsent ends inside the send window and inside the congestion window. */
    ghost predicate Fits()
      requires unsent != []
      reads this`unacked, this`unsent, this`base, this`una, this`sndWnd, this`cwnd
    {
      una <= HeadEnd() && HeadEnd() - una <= sndWnd && HeadEnd() - una <= cwnd
    }

    function Usable(): nat
      reads this`sndWnd, this`cwnd
    {
      if sndWnd <= cwnd then sndWnd else cwnd
    }

    /** tcp_do_output_nagle() == 0 */
    predicate NagleBlocks()
      reads this`unacked, this`unsent, this`nodelay, this`inFr, this`sndBuf, this`sndQueuelen
    {
      && unacked != [] && !nodelay && !inFr
      && !(unsent != [] && (|unsent| > 1 || Len(unsent[0]) >= mss))
      && sndBuf != 0 && sndQueuelen < TCP_SND_QUEUELEN
    }

    /** tcp_output(): `cap` segments are accepted by the IP layer, the next one is refused. Each segment that goes
        out was inside both windows and not held back by Nagle's rule; the next one, if any, was not, or it was
        refused. */
    method Output(cap: nat) returns (err: Err)
      requires Valid()
      modifies this`unacked, this`unsent, this`sndNxt, this`unsentOversize, this`nxt, this`nagleMemErr
      ensures Valid() && unacked + unsent == old(unacked + unsent) && old(unacked) <= unacked
      // snd_nxt is behind the last byte ever sent
      ensures nxt == if old(nxt) < base + |Bytes(unacked)| then base + |Bytes(unacked)| else old(nxt)
      ensures unsentOversize == if unsent == [] then 0 else old(unsentOversize)
      ensures SentInside(unacked, |old(unacked)|, base, una, sndWnd) && SentInside(unacked, |old(unacked)|, base, una, cwnd)
      ensures nodelay || inFr || sndBuf == 0 || sndQueuelen >= TCP_SND_QUEUELEN || old(nagleMemErr) ||
              SentAtOnce(unacked + unsent, |old(unacked)|, |unacked|, mss)
      ensures err == ErrOk && unsent != [] && Fits() ==>
        && unacked != [] && !nodelay && !inFr && |unsent| == 1 && Len(unsent[0]) < mss
        && sndBuf != 0 && sndQueuelen < TCP_SND_QUEUELEN && !old(nagleMemErr)
      ensures err != ErrOk ==> err == ErrIf && |unacked| == |old(unacked)| + cap && unsent != [] && Fits()
      ensures err == ErrIf ==>
        || unacked == [] || nodelay || inFr || |unsent| > 1 || Len(unsent[0]) >= mss
        || sndBuf == 0 || sndQueuelen >= TCP_SND_QUEUELEN || old(nagleMemErr)
      ensures |unacked| <= |old(unacked)| + cap && nagleMemErr == (err == ErrIf)
      // a head inside the windows goes out if nothing is unacknowledged
      ensures old(unsent != [] && Fits() && unacked == []) && cap > 0 ==> unacked != [] && unacked[0] == old(unsent)[0]
      // nothing goes out behind a head that lies below lastack
      ensures old(Stuck()) ==> unacked == old(unacked)
    {
      hide Queues, Pending, Bytes, Data, Wrap, SentInside, SentAtOnce, Len;
      ghost var q := unacked + unsent;
      err := SendUntil(cap);
      nagleMemErr := err == ErrIf;
      if unacked != [] { assert (unacked + unsent)[0] == unacked[0]; }
      if old(unacked) == [] && old(unsent) != [] { assert q[0] == old(unsent)[0]; }
    }

    /** The loop of tcp_output() */
    method SendUntil(cap: nat) returns (err: Err)
      requires Valid()
      modifies this`unacked, this`unsent, this`sndNxt, this`unsentOversize, this`nxt
      ensures Valid() && unacked + unsent == old(unacked + unsent) && old(unacked) <= unacked
      ensures nxt == Furthest(old(nxt), base, unacked) && unsentOversize == SpareLeft(unsent, old(unsentOversize))
      ensures SentRight(unacked, unsent, |old(unacked)|, base, una, sndWnd, cwnd, Prompt(), mss)
      ensures err == ErrOk ==> unsent == [] || !Fits() || (NagleBlocks() && !nagleMemErr)
      ensures err != ErrOk ==> err == ErrIf && unsent != [] && Fits() && !(NagleBlocks() && !nagleMemErr)
      ensures |unacked| <= |old(unacked)| + cap && (err != ErrOk ==> |unacked| == |old(unacked)| + cap)
      ensures |unacked| == |old(unacked)| ==> unacked == old(unacked) && unsent == old(unsent)
      ensures old(Stuck()) ==> unacked == old(unacked)
    {
      hide Queues, Pending, Bytes, Data, Wrap, SentRight, Len;
      err := ErrOk;
      var sent := 0;
      ghost var q, ua0 := unacked + unsent, unacked;
      SentNone(unacked, unsent, base, una, sndWnd, cwnd, Prompt(), mss);
      if unsent == [] { SpareNone(unacked, sndQueuelen, unsentOversize, written, base, iss, mss, le); }
      while unsent != []
        invariant Valid() && unacked + unsent == q && ua0 <= unacked && err == ErrOk
        invariant nxt == Furthest(old(nxt), base, unacked) && unsentOversize == SpareLeft(unsent, old(unsentOversize))
        invariant |unacked| == |ua0| + sent && sent <= cap
        invariant SentRight(unacked, unsent, |ua0|, base, una, sndWnd, cwnd, Prompt(), mss)
        invariant sent == 0 ==> unsent == old(unsent) && unacked == old(unacked)
        invariant old(Stuck()) ==> sent == 0
        decreases |unsent|
      {
        var fits := HeadFits();
        if !fits || (NagleBlocks() && !nagleMemErr) {
          break;
        }
        if sent == cap {
          return ErrIf;
        }
        SentMore(unacked, unsent, |ua0|, base, una, sndWnd, cwnd, Prompt(), mss);
        BytesGrow(unacked, unsent[0]);
        SendOne();
        sent := sent + 1;
      }
    }

    /** Nagle's rule is off, or there is no room to wait for more data. */
    ghost predicate Prompt()
      reads this`nodelay, this`inFr, this`sndBuf, this`sndQueuelen, this`nagleMemErr
    {
      nodelay || inFr || sndBuf == 0 || sndQueuelen >= TCP_SND_QUEUELEN || nagleMemErr
    }

    method SendOne()
      requires Valid() && unsent != []
      modifies this`unacked, this`unsent, this`sndNxt, this`unsentOversize, this`nxt
      ensures Valid() && unacked + unsent == old(unacked + unsent) && nxt >= old(nxt)
      ensures unacked == old(unacked) + [old(unsent)[0]] && unsent == old(unsent)[1..]
      ensures nxt == (if old(nxt) < base + |Bytes(unacked)| then base + |Bytes(unacked)| else old(nxt))
      ensures unsentOversize == if unsent == [] then 0 else old(unsentOversize)
    {
      hide Queues, Pending, Bytes, Wrap;
      var ua, us, sn, os, nx :=
        SendHead(unacked, unsent, sndNxt, sndQueuelen, unsentOversize, le, written, base, nxt, iss, mss);
      unacked, unsent, sndNxt, unsentOversize := ua, us, sn, os;
      nxt := nx;
    }

    /** Whether the head of unsent ends inside the usable window, in 32 bits. */
    method HeadFits() returns (b: bool)
      requires Valid() && unsent != []
      ensures b <==> una <= HeadEnd() && HeadEnd() - una <= sndWnd && HeadEnd() - una <= cwnd
    {
      hide Queues, Pending, Holds, Bytes, Data, Len, Wrap;
      QueueFacts(unacked, unsent, sndQueuelen, unsentOversize, written, base, iss, mss, le);
      HeadFollowsTail(unacked, unsent, written, base, |written|, iss, mss);
      ghost var mid := base + |Bytes(unacked)|;
      if mid + Len(unsent[0]) < una {
        BelowAckNeverFits(iss, mid, una, Len(unsent[0]), Usable());
      } else {
        OffsetExact(iss, mid, una, Len(unsent[0]));
      }
      b := Wrap(Wrap(unsent[0].seqno - lastack) + Len(unsent[0])) <= Usable();
    }

    /** tcp_rexmit_rto_prepare(): everything unacked goes in front of unsent. */
    method RexmitRtoPrepare(busy: bool) returns (err: Err)
      modifies this`unacked, this`unsent
      ensures (old(Valid()) ==> Valid()) && unacked + unsent == old(unacked + unsent)
      ensures err == ErrOk <==> old(unacked) != [] && !busy
      ensures err == ErrOk ==> unacked == [] && unsent == old(unacked + unsent)
      ensures err == ErrOk || err == ErrVal
      ensures err != ErrOk ==> unchanged(this)
    {
      hide Queues, Pending, Bytes, Wrap;
      if unacked == [] || busy {
        return ErrVal;
      }
      if Valid() { RequeueAll(unacked, unsent, sndQueuelen, unsentOversize, written, base, iss, mss, le); }
      unsent := unacked + unsent;
      unacked := [];
      assert [] + unsent == unsent;
      NoBytes();
      return ErrOk;
    }

    /** tcp_rexmit(): the first unacked segment goes back to unsent, where it is the first too. Until it
        is sent again the queues are not one stretch of the stream, but both are in order. */
    method FastRexmit(busy: bool) returns (err: Err)
      requires Valid()
      modifies this`unacked, this`unsent, this`unsentOversize
      ensures err == ErrOk <==> old(unacked) != [] && !busy
      ensures err != ErrOk ==> unchanged(this)
      ensures err == ErrOk ==> Requeued(old(unacked), old(unsent), unacked, unsent)
      ensures err == ErrOk ==> Waiting() && unsentOversize == old(unsentOversize)
    {
      hide Queues, Pending, Holds, Bytes, Wrap, Requeued;
      var ua, us, os;
      err, ua, us, os := RexmitQueues(unacked, unsent, busy, sndQueuelen, unsentOversize, le, written, base, iss, mss);
      if err == ErrOk {
        RequeuedBack(unacked, unsent, ua, us);
        unacked, unsent, unsentOversize := ua, us, os;
      }
    }

    /** tcp_output() on the segment that is to be retransmitted: it goes back to its place in unacked, and
        everything is as it was before. */
    method SendAgain()
      requires Waiting()
      modifies this`unacked, this`unsent, this`sndNxt, this`unsentOversize
      ensures Valid() && unacked == [old(unsent)[0]] + old(unacked) && unsent == old(unsent)[1..]
      ensures sndNxt == old(sndNxt) && unsentOversize == old(unsentOversize)
    {
      hide Queues, Pending, Holds, Bytes, Wrap, Ascending, SeqLt;
      var seg := unsent[0];
      ghost var ua, us := [seg] + unacked, unsent[1..];
      ResentFacts(seg, unacked, us, sndQueuelen, unsentOversize, written, base, nxt, iss, mss, le);
      sndNxt := Later(sndNxt, Wrap(seg.seqno + Len(seg)));
      assert unacked == [] ==> unacked + [seg] == [seg] + unacked;
      unacked := InsertUnacked(unacked, seg);
      unsent := unsent[1..];
      if unsent == [] {
        unsentOversize := 0;
      }
    }

    /** tcp_rexmit_fast() and tcp_output() after it, when both windows let the segment out at once: nothing is left of
        it but the flag. */
    method RexmitFast(busy: bool)
      requires Valid()
      modifies this`unacked, this`unsent, this`sndNxt, this`unsentOversize, this`inFr
      ensures Valid() && unacked == old(unacked) && unsent == old(unsent) && sndNxt == old(sndNxt) && unsentOversize == old(unsentOversize)
      ensures inFr <==> old(inFr) || (unacked != [] && !busy && FirstFits())
    {
      hide Queues, Pending, Holds, Bytes, Wrap, Balanced;
      if inFr || unacked == [] {
        return;
      }
      var fits := FirstUnackedFits();
      if fits {
        var err := FastRexmit(busy);
        if err == ErrOk {
          inFr := true;
          SendAgain();
        }
      }
    }

    /** The first unacknowledged segment ends inside both windows. */
    ghost predicate FirstFits()
      requires unacked != []
      reads this`unacked, this`base, this`una, this`sndWnd, this`cwnd
    {
      var end := base + Len(unacked[0]);
      una <= end && end - una <= sndWnd && end - una <= cwnd
    }

    method FirstUnackedFits() returns (b: bool)
      requires Valid() && unacked != []
      ensures b <==> FirstFits()
    {
      hide Queues, Pending, Bytes, Data, Len, Wrap;
      FirstUnacked(unacked, unsent, sndQueuelen, unsentOversize, written, base, iss, mss, le);
      if base + Len(unacked[0]) < una {
        BelowAckNeverFits(iss, base, una, Len(unacked[0]), Usable());
      } else {
        OffsetExact(iss, base, una, Len(unacked[0]));
      }
      b := Wrap(Wrap(unacked[0].seqno - lastack) + Len(unacked[0])) <= Usable();
    }

    /** tcp_split_unsent_seg(), for every split there is */
    method SplitUnsent(split: u16, mem: nat) returns (err: Err)
      requires Valid()
      modifies this`unsent, this`sndQueuelen, this`unsentOversize
      ensures Valid() && Bytes(unacked + unsent) == old(Bytes(unacked + unsent))
      ensures err != ErrOk ==> unchanged(this)
      ensures err == Halted <==> old(unsent) != [] && split == 0
      ensures err == ErrOk <==> old(unsent) != [] && split > 0 && (Len(old(unsent)[0]) <= split || mem >= 2)
      ensures err == ErrOk ==> unsent != [] && Len(unsent[0]) <= split
      ensures err == ErrOk && Len(old(unsent)[0]) <= split ==> unchanged(this)
      ensures err == ErrOk && Len(old(unsent)[0]) > split ==> |unsent| == |old(unsent)| + 1 && Len(unsent[0]) == split && unsent[2..] == old(unsent)[1..]
      // a part that is kept although it is acknowledged
      ensures err == ErrOk && Len(old(unsent)[0]) > split && old(NothingStale()) ==>
        && (NothingStale() <==> unacked != [] || una < base + split)
        && (Stuck() <==> unacked == [] && base + split < una)
    {
      hide Queues, Bytes, Data, Wrap;
      if unsent == [] {
        return ErrMem;
      }
      if split == 0 {
        return Halted;
      }
      if Len(unsent[0]) <= split {
        return ErrOk;
      }
      if mem < 2 {
        return ErrMem;
      }
      var us, ql, os :=
        SplitQueues(unacked, unsent, split, sndQueuelen, unsentOversize, le, written, base, iss, mss);
      StaleAfterSplit(unacked, unsent, us, base, una, split);
      unsent, sndQueuelen, unsentOversize := us, ql, os;
      return ErrOk;
    }

    /** The send window part of tcp_receive(). */
    method UpdateWindow(wnd: u16)
      requires Valid()
      modifies this`sndWnd, this`sndWndMax
      ensures Valid() && sndWnd == wnd && sndWndMax == if old(sndWndMax) < wnd then wnd else old(sndWndMax)
    {
      sndWnd := wnd;
      if sndWndMax < wnd {
        sndWndMax := wnd;
      }
    }

    /**
     * Every run of writes, transmissions, acknowledgements, window updates, retransmissions and splits,
     * up to a failed assertion: the two queues hold exactly the unacknowledged rest of what was written, in
     * order and with right checksums, and the accounts balance.
     */
    method Run(ops: seq<Op>) returns (halted: bool, done: nat)
      requires Valid()
      modifies this
      ensures Valid() && old(written) <= written && done <= |ops| && (halted ==> done > 0) && (!halted ==> done == |ops|)
      ensures Bytes(unacked + unsent) == written[base..] && base <= una <= |written|
      ensures sndBuf + |Bytes(unacked + unsent)| == TCP_SND_BUF && sndQueuelen == Clen(unacked + unsent)
    {
      hide Queues, Pending, Bytes, Data, Wrap, Survivors;
      halted, done := false, 0;
      while done < |ops| && !halted
        invariant done <= |ops| && Valid() && old(written) <= written && (halted ==> done > 0)
      {
        halted := Apply(ops[done]);
        done := done + 1;
      }
      QueuesSay(unacked, unsent, sndQueuelen, unsentOversize, written, base, iss, mss, le);
    }

    /** One of them; `halted` is a failed assertion. */
    method Apply(op: Op) returns (halted: bool)
      requires Valid()
      modifies this
      ensures Valid() && old(written) <= written
      ensures !op.WriteOp? && !op.SplitOp? ==> !halted
      ensures op.SplitOp? ==> (halted <==> old(unsent) != [] && op.split == 0)
      // and what it is for is done
      ensures op.WriteOp? ==> written == old(written) || written == old(written) + op.data
      ensures op.WriteOp? && |op.data| < 0x1_0000 && op.mayWrite && !halted && old(Admits(|op.data|) && Suffices(|op.data|, op.copy, op.mem)) ==>
        written == old(written) + op.data
      ensures op.OutputOp? && op.cap > 0 && old(unsent != [] && Fits() && unacked == []) ==> unacked != []
      ensures op.AckOp? ==> var ack := old(una) + Diff(op.ackno, old(lastack)); una == if old(una) < ack <= old(nxt) then ack else old(una)
      ensures op.WindowOp? ==> sndWnd == op.wnd
      ensures op.CwndOp? ==> cwnd == op.cwnd
      ensures op.RtoOp? && !op.busy ==> unacked == []
      ensures op.FastOp? ==> (inFr <==> old(inFr) || (old(unacked) != [] && !op.busy && old(FirstFits())))
      ensures op.SplitOp? && !halted && op.mem >= 2 && old(unsent) != [] ==> unsent != [] && Len(unsent[0]) <= op.split
      ensures op.WriteOp? && halted ==> old(unsent) != [] && Len(old(unsent)[|old(unsent)| - 1]) + old(unsentOversize) > MssNow()
    {
      hide Queues, Pending, Bytes, Data, Wrap, Survivors, Diff, NewSegments;
      var err := ErrOk;
      match op {
        case WriteOp(data, copy, more, adjacent, mem, mayWrite) =>
          if |data| < 0x1_0000 { err := Write(data, copy, more, adjacent, mem, mayWrite); }
        case OutputOp(cap) =>
          err := Output(cap);
        case AckOp(ackno) =>
          var isNew;
          ghost var ack;
          isNew, ack := Ack(ackno);
        case WindowOp(wnd) =>
          UpdateWindow(wnd);
        case CwndOp(c) =>
          cwnd := c;
        case RtoOp(busy) =>
          err := RexmitRtoPrepare(busy);
        case FastOp(busy) =>
          RexmitFast(busy);
        case SplitOp(split, mem) =>
          err := SplitUnsent(split, mem);
      }
      halted := err == Halted;
    }
  }

  // ------------------------------------------------------------------- examples

  lemma {:induction false} FirstFacts(q: seq<Seg>, queuelen: int, oversize: nat, data: seq<byte>, mss: int, le: bool)
    requires Queues([], q, queuelen, oversize, data, 0, 0, mss, le)
    ensures queuelen <= 2 * |data| && |Bytes(q)| == |data| && (|q| == 1 ==> Len(q[0]) == |data|)
  {
    hide Data, SpareOk, AllSummed;
    assert [] + q == q;
    ClenBound(q, 0, 0, mss, |q|);
    if |q| == 1 {
      assert q == [q[0]];
      QueueOne(q[0], 0, 0, mss);
    }
  }

  /** A write to a fresh connection. */
  method FirstWrite(mss: u16, wnd: u16, data: seq<byte>, le: bool) returns (pcb: SendPcb)
    requires mss > 0 && |data| <= TCP_SND_BUF && Segments(|data|, MssLocal(mss, wnd)) <= 2
    ensures fresh(pcb) && pcb.Valid() && pcb.NothingStale() && pcb.unacked == [] && pcb.written == data
    ensures pcb.base == 0 && pcb.una == 0 && pcb.iss == 0 && pcb.mss == mss && pcb.sndWnd == pcb.sndWndMax == wnd
    ensures |pcb.unsent| == Segments(|data|, MssLocal(mss, wnd)) && (|pcb.unsent| == 1 ==> Len(pcb.unsent[0]) == |data|)
    ensures pcb.sndQueuelen <= 2 * |data| && pcb.le == le
  {
    hide Queues, Bytes, Data, Wrap, Holds, Clen, Pending, Segments;
    pcb := new SendPcb(0, mss, wnd, le);
    assert [] + data == data;
    var err := pcb.Write(data, true, false, false, 9, true);
    FirstFacts(pcb.unsent, pcb.sndQueuelen, pcb.unsentOversize, data, mss, le);
  }

  /** Everything goes out when the window covers it. */
  method SendAll(pcb: SendPcb)
    requires pcb.Valid() && pcb.unacked == [] && pcb.una == pcb.base && |pcb.written| - pcb.base <= pcb.sndWnd
    modifies pcb
    ensures pcb.Valid() && pcb.unacked == old(pcb.unsent) && pcb.unsent == [] && pcb.nxt == |pcb.written|
    ensures pcb.base == old(pcb.base) && pcb.una == old(pcb.una) && pcb.written == old(pcb.written)
    ensures pcb.sndQueuelen == old(pcb.sndQueuelen) && pcb.sndWndMax == old(pcb.sndWndMax)
  {
    hide Queues, Bytes, Data, Wrap, Holds, Clen, Pending;
    ghost var q := pcb.unsent;
    StartsAt(pcb);
    assert [] + q == q;
    pcb.nodelay, pcb.cwnd := true, pcb.sndWnd;
    var err := pcb.Output(|pcb.unsent|);
    if pcb.unsent != [] { HeadInside(pcb); }
    assert pcb.unacked == q;
  }

  lemma {:induction false} HeadInside(pcb: SendPcb)
    requires pcb.Valid() && pcb.unsent != []
    ensures pcb.base <= pcb.HeadEnd() <= |pcb.written|
  {
    hide Queues, Holds, Bytes, Data, Wrap;
    QueueFacts(pcb.unacked, pcb.unsent, pcb.sndQueuelen, pcb.unsentOversize, pcb.written, pcb.base, pcb.iss, pcb.mss, pcb.le);
    HeadFollowsTail(pcb.unacked, pcb.unsent, pcb.written, pcb.base, |pcb.written|, pcb.iss, pcb.mss);
  }

  /** A segment of 100 bytes is to be sent again; the first 50 are acknowledged, and the segment is split for a
      window of 10. The part that is kept lies below lastack. */
  method SplitTooLate(pcb: SendPcb, ghost seg: Seg)
    requires pcb.Valid() && pcb.unacked == [] && pcb.unsent == [seg] && pcb.base == pcb.una == pcb.iss == 0
    requires Len(seg) == |pcb.written| == 100 && pcb.nxt == 100
    modifies pcb
    ensures pcb.Valid() && pcb.Stuck() && |pcb.unsent| == 2
    ensures pcb.sndWnd == old(pcb.sndWnd)
  {
    hide Balanced, Bytes, Data, Wrap, Pending, Survivors, Diff, Clen, Len;
    HalfAcked(seg);
    StartsAt(pcb);
    var isNew;
    ghost var ack;
    assert [] + [seg] == [seg];
    isNew, ack := pcb.Ack(50);
    assert pcb.unacked == [] && pcb.unsent == [seg] by { assert pcb.unacked + pcb.unsent == [seg]; }
    StartsAt(pcb);
    var err := pcb.SplitUnsent(10, 2);
  }

  lemma {:induction false} StartsAt(pcb: SendPcb)
    requires pcb.Valid() && pcb.unacked == []
    ensures pcb.base + |Bytes(pcb.unsent)| == |pcb.written| && pcb.lastack == Wrap(pcb.iss + pcb.una)
  {
    hide Queues, Bytes, Wrap;
    assert [] + pcb.unsent == pcb.unsent;
    QueuesSay([], pcb.unsent, pcb.sndQueuelen, pcb.unsentOversize, pcb.written, pcb.base, pcb.iss, pcb.mss, pcb.le);
  }

  lemma {:induction false} HalfAcked(seg: Seg)
    requires Len(seg) == 100
    ensures Survivors([], 0, 50) == [] && Survivors([seg], 0, 50) == [seg] && Diff(50, Wrap(0)) == 50 && |Bytes([seg])| == 100
  {
    QueueOne(seg, 0, 0, 100);
  }

  /** The window shrinks to 10 and a retransmission is due; after that nothing can be sent any more. */
  method StuckExample(le: bool) returns (pcb: SendPcb)
    ensures fresh(pcb) && pcb.Valid() && pcb.Stuck() && |pcb.unsent| == 2 && pcb.sndWnd == 10
  {
    hide Balanced, Bytes, Data, Wrap, Pending;
    SegmentsStep(100, 100);
    pcb := FirstWrite(100, 1000, seq(100, i => 0), le);
    ghost var seg := pcb.unsent[0];
    SendAll(pcb);
    pcb.UpdateWindow(10);
    var err := pcb.RexmitRtoPrepare(false);
    assert pcb.unsent == [seg];
    SplitTooLate(pcb, seg);
  }

  /** The peer announces a window of one byte and then one of two: mss_local falls from 1460 to 1, and the
      assertion on the last unsent segment fails. */
  method ShrinkExample(le: bool) returns (pcb: SendPcb, err: Err)
    ensures fresh(pcb) && pcb.Valid() && err == Halted
  {
    hide Queues, Bytes, Data, Wrap, Pending, NewSegments, Enough;
    SegmentsStep(2, 1460);
    pcb := FirstWrite(1460, 1, [1, 2], le);
    pcb.UpdateWindow(2);
    err := pcb.Write([3], true, false, false, 9, true);
  }

  /** Two segments of one byte are in flight; the first is queued for a fast retransmission, and before it is
      sent the retransmission timer fires: unsent is not in order any more. */
  method UnsortedExample(le: bool) returns (pcb: SendPcb)
    ensures fresh(pcb) && pcb.unacked == [] && |pcb.unsent| == 2 && !Ascending(pcb.unsent)
  {
    hide Balanced, Bytes, Data, Wrap, Pending, Ascending, Segments;
    SegmentsStep(2, 1);
    SegmentsStep(1, 1);
    pcb := FirstWrite(1, 2, [1, 2], le);
    SendAll(pcb);
    ghost var q := pcb.unacked;
    HeldInOrder(pcb);
    var err := pcb.FastRexmit(false);
    RtoKeepsOrderIff(q, []);
    err := pcb.RexmitRtoPrepare(false);
  }

  /** Again two segments of one byte, the first queued for a fast retransmission; a third byte is written before
      it is sent: the segment that starts the stream 1, 2, 3 is now 1, 3. */
  method MisplacedExample(le: bool) returns (pcb: SendPcb)
    ensures fresh(pcb) && pcb.written == [1, 2, 3] && !pcb.InPlace()
    ensures |pcb.unsent| == 1 && pcb.unsent[0].seqno == pcb.iss && Data(pcb.unsent[0].pbufs) == [1, 3]
  {
    hide Balanced, Bytes, Data, Wrap, Pending, Ascending, Segments, Summed, Holds, Grown;
    SegmentsStep(2, 1);
    SegmentsStep(1, 1);
    NoSegments(2);
    pcb := FirstWrite(2, 2, [1, 2], le);
    TwoHeld(pcb);
    SendAll(pcb);
    pcb.UpdateWindow(4);
    var err := pcb.FastRexmit(false);
    ghost var first := pcb.unsent[0];
    assert !Continues(pcb.unacked, pcb.unsent, 1, pcb.MssNow());
    LoneWaiting(pcb);
    ghost var m := pcb.MssNow();
    assert m == 2 && pcb.unsent == [first];
    err := pcb.Write([3], true, false, false, 9, true);
    assert pcb.MssNow() == m;
    assert [1, 2] + [3] == [1, 2, 3];
    GrownByOne(first, pcb.unsent, [3]);
  }

  lemma {:induction false} GrownByOne(seg: Seg, us: seq<Seg>, data: seq<byte>)
    requires Grown([seg], us, data, 2) && |data| == 1 && Len(seg) == 1
    ensures us[0].seqno == seg.seqno && Data(us[0].pbufs) == Data(seg.pbufs) + data
  {
    hide Data;
    assert data[..1] == data;
  }

  lemma {:induction false} LoneWaiting(pcb: SendPcb)
    requires pcb.Waiting() && |pcb.unsent| == 1
    ensures pcb.unsentOversize == 0 && pcb.sndBuf + (|pcb.written| - pcb.base) == TCP_SND_BUF
  {
    hide Holds, AllSummed, Clen, Bytes;
  }

  lemma {:induction false} TwoHeld(pcb: SendPcb)
    requires pcb.Valid() && pcb.unacked == [] && |pcb.unsent| == 2 && pcb.written == [1, 2] && pcb.base == 0 && pcb.iss == 0
    ensures var s := pcb.unsent[0]; Data(s.pbufs) == [1] && s.seqno == 0 && Summed(s, pcb.le) && s.pbufs != []
  {
    hide Chained, Bytes, Data, Clen;
    var a, b, w := pcb.unsent[0], pcb.unsent[1], [1, 2];
    assert [] + pcb.unsent == [a] + [b];
    HoldsSplit([a], [b], w, 0, 2, 0, pcb.mss);
    QueueOne(a, 0, 0, pcb.mss);
    QueueOne(b, 0, Len(a), pcb.mss);
    assert w[0..1] == [1];
  }

  lemma {:induction false} HeldInOrder(pcb: SendPcb)
    requires pcb.Valid()
    ensures Ascending(pcb.unacked + pcb.unsent)
  {
    hide Queues, Holds, Ascending;
    QueueFacts(pcb.unacked, pcb.unsent, pcb.sndQueuelen, pcb.unsentOversize, pcb.written, pcb.base, pcb.iss, pcb.mss, pcb.le);
    HeldAscending(pcb.unacked + pcb.unsent, pcb.written, pcb.base, |pcb.written|, pcb.iss, pcb.mss);
  }
}
